/**
 Unmarshalling what was marshalled: exactly which values come back.
 */
module CodecRoundTrip {
  import opened Wrappers
  import opened Bytes
  import opened Codec

  // The values that survive the round trip. marshal accepts a slice whose length truncated to 32
  // bits is within the bound, but unmarshal refuses a length above MaxInt32; and a concrete type
  // comes back only while its type ID still leads to it.
  predicate Faithful(c: Config, ty: Ty, v: Value)
    decreases v
  {
    match ty
    case TSlice(e) => v.VSeq? ==> |v.elems| <= MAX_INT32 && forall x | x in v.elems :: Faithful(c, e, x)
    case TArray(_, e) => v.VSeq? ==> forall x | x in v.elems :: Faithful(c, e, x)
    case TPtr(e) => v.VPtr? ==> Faithful(c, e, v.elem)
    case TStruct(_, fs) =>
      v.VStruct? && |v.fields| == |fs| ==> forall i | 0 <= i < |fs| :: Faithful(c, fs[i].ty, v.fields[i])
    case TInterface(_) => v.VInterface? ==> Resolves(c, v.ty) && Faithful(c, v.ty, v.elem)
    case _ => true
  }

  // The type's ID leads back to the type.
  predicate Resolves(c: Config, ty: Ty) {
    ty in c.typeToTypeID ==> c.typeToTypeID[ty] in c.typeIDToType && c.typeIDToType[c.typeToTypeID[ty]] == ty
  }

  lemma PowersOf256()
    ensures Pow256(1) == 0x100 && Pow256(2) == 0x1_0000 && Pow256(4) == 0x1_0000_0000
    ensures Pow256(8) == 0x1_0000_0000_0000_0000
  {
    assert Pow256(3) == 0x100_0000 && Pow256(5) == 0x100_0000_0000 && Pow256(6) == 0x1_0000_0000_0000 &&
        Pow256(7) == 0x100_0000_0000_0000;
  }

  lemma UintRoundTrip(n: nat, width: nat, tail: bytes)
    requires n < Pow256(width)
    ensures DecodeUint(ToBigEndian(n, width) + tail, width) == Parsed(n, tail)
  {
    BigEndianRoundTrip(n, width);
    var b := ToBigEndian(n, width);
    assert (b + tail)[..width] == b && (b + tail)[width..] == tail;
  }

  lemma PowerOf256(width: nat)
    requires width in WIDTHS
    ensures IsPower(Pow256(width))
  {
    PowersOf256();
  }

  predicate IsPower(p: int) {
    p == 0x100 || p == 0x1_0000 || p == 0x1_0000_0000 || p == 0x1_0000_0000_0000_0000
  }

  lemma ModPower(n: int, p: int)
    requires IsPower(p) && -p <= n < p
    ensures n % p == if n < 0 then n + p else n
  {
    if p == 0x100 {
    } else if p == 0x1_0000 {
    } else if p == 0x1_0000_0000 {
    } else {
    }
  }

  // A number in the range of its type is recovered from its bits.
  lemma BitsRoundTrip(n: int, width: nat)
    requires width in WIDTHS
    ensures Bits(n, width) < Pow256(width)
    ensures 0 <= n < Pow256(width) ==> Bits(n, width) == n
    ensures 0 <= 2 * n + Pow256(width) && 2 * n < Pow256(width) ==> Signed(Bits(n, width), width) == n
  {
    var p := Pow256(width);
    PowerOf256(width);
    if -p <= n < p {
      ModPower(n, p);
    }
  }

  ghost predicate ComesBack<T>(r: Parsed<T>, v: T, tail: bytes, faithful: bool) {
    if faithful then r == Parsed(v, tail) else r.Malformed? || r.value != v
  }

  // Whatever marshal produces for a value, followed by any bytes, unmarshals to that value with
  // those bytes left over if and only if the value is faithful.
  lemma {:induction false} RoundTrip(c: Config, ty: Ty, v: Value, maxSliceLen: nat, tail: bytes)
    requires HasType(c, ty, v) && Encode(c, ty, v, maxSliceLen).Some?
    ensures ComesBack(Decode(c, ty, Encode(c, ty, v, maxSliceLen).value + tail, maxSliceLen), v, tail,
                      Faithful(c, ty, v))
    decreases v, 1
  {
    match ty {
      case TSlice(e) => SliceRoundTrip(c, e, v, maxSliceLen, tail);
      case TArray(n, e) => AllRoundTrip(c, e, v.elems, tail);
      case TPtr(e) => RoundTrip(c, e, v.elem, c.maxSliceLen, tail);
      case TStruct(_, fs) => FieldsRoundTrip(c, fs, v.fields, tail);
      case TInterface(name) => InterfaceRoundTrip(c, name, v, maxSliceLen, tail);
      case _ => ScalarRoundTrip(c, ty, v, maxSliceLen, tail);
    }
  }

  lemma ScalarRoundTrip(c: Config, ty: Ty, v: Value, maxSliceLen: nat, tail: bytes)
    requires HasType(c, ty, v) && Encode(c, ty, v, maxSliceLen).Some?
    requires ty.TUint? || ty.TInt? || ty.TBool? || ty.TString?
    ensures Decode(c, ty, Encode(c, ty, v, maxSliceLen).value + tail, maxSliceLen) == Parsed(v, tail)
  {
    var b := Encode(c, ty, v, maxSliceLen).value;
    match ty {
      case TUint(w) =>
        BitsRoundTrip(v.n, w);
        UintRoundTrip(v.n, w, tail);
      case TInt(w) =>
        BitsRoundTrip(v.n, w);
        UintRoundTrip(Bits(v.n, w), w, tail);
      case TBool =>
        PowersOf256();
        assert b == ToBigEndian(if v.b then 1 else 0, 1);
        UintRoundTrip(if v.b then 1 else 0, 1, tail);
      case TString =>
        StringRoundTrip(v.s, tail);
    }
  }

  lemma StringRoundTrip(s: bytes, tail: bytes)
    requires |s| <= MAX_UINT16
    ensures DecodeString(ToBigEndian(|s|, 2) + s + tail) == Parsed(VString(s), tail)
  {
    PowersOf256();
    UintRoundTrip(|s|, 2, s + tail);
    StringAfterLength(ToBigEndian(|s|, 2), s, tail);
  }

  lemma StringAfterLength(length: bytes, s: bytes, tail: bytes)
    requires DecodeUint(length + (s + tail), 2) == Parsed(|s|, s + tail)
    ensures DecodeString(length + s + tail) == Parsed(VString(s), tail)
  {
    assert length + s + tail == length + (s + tail);
    assert (s + tail)[..|s|] == s && (s + tail)[|s|..] == tail;
  }

  lemma {:induction false} SliceRoundTrip(c: Config, e: Ty, v: Value, maxSliceLen: nat, tail: bytes)
    requires HasType(c, TSlice(e), v) && Encode(c, TSlice(e), v, maxSliceLen).Some?
    ensures ComesBack(Decode(c, TSlice(e), Encode(c, TSlice(e), v, maxSliceLen).value + tail, maxSliceLen), v, tail,
                      Faithful(c, TSlice(e), v))
    decreases v, 0
  {
    var b := Encode(c, TSlice(e), v, maxSliceLen).value;
    var elems := EncodeAll(c, e, v.elems).value;
    var n := Uint32(|v.elems|);
    LengthRoundTrip(n, elems + tail);
    Uint32Small(|v.elems|);
    Regroup(ToBigEndian(n, 4), elems, tail);
    if |v.elems| <= MAX_INT32 {
      AllRoundTrip(c, e, v.elems, tail);
    }
  }

  lemma LengthRoundTrip(n: uint32, tail: bytes)
    ensures DecodeUint(ToBigEndian(n, 4) + tail, 4) == Parsed(n, tail)
  {
    PowersOf256();
    UintRoundTrip(n, 4, tail);
  }

  lemma Uint32Small(n: nat)
    ensures n <= MAX_INT32 ==> Uint32(n) == n
  {
  }

  lemma Regroup(a: bytes, b: bytes, c: bytes)
    ensures a + b + c == a + (b + c)
  {
  }

  lemma {:induction false} InterfaceRoundTrip(c: Config, name: string, v: Value, maxSliceLen: nat, tail: bytes)
    requires HasType(c, TInterface(name), v) && Encode(c, TInterface(name), v, maxSliceLen).Some?
    ensures ComesBack(Decode(c, TInterface(name), Encode(c, TInterface(name), v, maxSliceLen).value + tail,
                             maxSliceLen), v, tail,
                      Faithful(c, TInterface(name), v))
    decreases v, 0
  {
    var id := c.typeToTypeID[v.ty];
    var inner := Encode(c, v.ty, v.elem, c.maxSliceLen).value;
    LengthRoundTrip(id, inner + tail);
    Regroup(ToBigEndian(id, 4), inner, tail);
    RoundTrip(c, v.ty, v.elem, c.maxSliceLen, tail);
  }

  ghost predicate AllFaithful(c: Config, ty: Ty, vs: seq<Value>) {
    forall x | x in vs :: Faithful(c, ty, x)
  }

  lemma AllFaithfulSplit(c: Config, ty: Ty, vs: seq<Value>)
    requires vs != []
    ensures AllFaithful(c, ty, vs) <==> Faithful(c, ty, vs[0]) && AllFaithful(c, ty, vs[1..])
  {
    assert vs == [vs[0]] + vs[1..];
  }

  // What is read is a first value and then others, all of which come back if each does.
  lemma BothComeBack(first: Parsed<Value>, v: Value, middle: bytes, one: bool,
                     others: Parsed<seq<Value>>, vs: seq<Value>, tail: bytes, rest: bool, r: Parsed<seq<Value>>)
    requires ComesBack(first, v, middle, one)
    requires first == Parsed(v, middle) ==> ComesBack(others, vs, tail, rest)
    requires r == if first.Parsed? && others.Parsed? then Parsed([first.value] + others.value, others.rest)
             else Malformed
    ensures ComesBack(r, [v] + vs, tail, one && rest)
  {
    if r.Parsed? {
      assert r.value[0] == first.value && r.value[1..] == others.value;
      assert ([v] + vs)[0] == v && ([v] + vs)[1..] == vs;
    }
  }

  lemma {:induction false} AllRoundTrip(c: Config, ty: Ty, vs: seq<Value>, tail: bytes)
    requires (forall x | x in vs :: HasType(c, ty, x)) && EncodeAll(c, ty, vs).Some?
    ensures ComesBack(DecodeAll(c, ty, |vs|, EncodeAll(c, ty, vs).value + tail), vs, tail, AllFaithful(c, ty, vs))
    decreases vs, 0
  {
    if vs == [] {
      assert [] + tail == tail;
    } else {
      var b, rest := Encode(c, ty, vs[0], c.maxSliceLen).value, EncodeAll(c, ty, vs[1..]).value;
      Regroup(b, rest, tail);
      RoundTrip(c, ty, vs[0], c.maxSliceLen, rest + tail);
      AllRoundTrip(c, ty, vs[1..], tail);
      FirstComesBack(c, ty, vs, b + (rest + tail), rest + tail, tail);
    }
  }

  lemma FirstComesBack(c: Config, ty: Ty, vs: seq<Value>, b: bytes, middle: bytes, tail: bytes)
    requires vs != [] && ComesBack(Decode(c, ty, b, c.maxSliceLen), vs[0], middle, Faithful(c, ty, vs[0]))
    requires ComesBack(DecodeAll(c, ty, |vs| - 1, middle), vs[1..], tail, AllFaithful(c, ty, vs[1..]))
    ensures ComesBack(DecodeAll(c, ty, |vs|, b), vs, tail, AllFaithful(c, ty, vs))
  {
    var first := Decode(c, ty, b, c.maxSliceLen);
    var others := if first.Parsed? then DecodeAll(c, ty, |vs| - 1, first.rest) else Malformed;
    BothComeBack(first, vs[0], middle, Faithful(c, ty, vs[0]),
                 others, vs[1..], tail, AllFaithful(c, ty, vs[1..]), DecodeAll(c, ty, |vs|, b));
    assert vs == [vs[0]] + vs[1..];
    AllFaithfulSplit(c, ty, vs);
  }

  ghost predicate FieldsFaithful(c: Config, fs: seq<Field>, vs: seq<Value>)
    requires |fs| == |vs|
  {
    forall i | 0 <= i < |fs| :: Faithful(c, fs[i].ty, vs[i])
  }

  lemma FieldsFaithfulSplit(c: Config, fs: seq<Field>, vs: seq<Value>)
    requires |fs| == |vs| && vs != []
    ensures FieldsFaithful(c, fs, vs) <==> Faithful(c, fs[0].ty, vs[0]) && FieldsFaithful(c, fs[1..], vs[1..])
  {
    assert forall i | 0 < i < |fs| :: fs[i] == fs[1..][i - 1] && vs[i] == vs[1..][i - 1];
  }

  lemma {:induction false} FieldsRoundTrip(c: Config, fs: seq<Field>, vs: seq<Value>, tail: bytes)
    requires |fs| == |vs| && (forall i | 0 <= i < |fs| :: HasType(c, fs[i].ty, vs[i]))
    requires EncodeFields(c, fs, vs).Some?
    ensures ComesBack(DecodeFields(c, fs, EncodeFields(c, fs, vs).value + tail), vs, tail, FieldsFaithful(c, fs, vs))
    decreases vs, 0
  {
    if vs == [] {
      assert [] + tail == tail;
    } else {
      var b, rest := Encode(c, fs[0].ty, vs[0], fs[0].maxSliceLen).value, EncodeFields(c, fs[1..], vs[1..]).value;
      Regroup(b, rest, tail);
      RoundTrip(c, fs[0].ty, vs[0], fs[0].maxSliceLen, rest + tail);
      FieldsRoundTrip(c, fs[1..], vs[1..], tail);
      FirstFieldComesBack(c, fs, vs, b + (rest + tail), rest + tail, tail);
    }
  }

  lemma FirstFieldComesBack(c: Config, fs: seq<Field>, vs: seq<Value>, b: bytes, middle: bytes, tail: bytes)
    requires |fs| == |vs| && vs != []
    requires ComesBack(DecodeField(c, fs[0], b), vs[0], middle, Faithful(c, fs[0].ty, vs[0]))
    requires ComesBack(DecodeFields(c, fs[1..], middle), vs[1..], tail, FieldsFaithful(c, fs[1..], vs[1..]))
    ensures ComesBack(DecodeFields(c, fs, b), vs, tail, FieldsFaithful(c, fs, vs))
  {
    FieldsFaithfulSplit(c, fs, vs);
    var first := DecodeField(c, fs[0], b);
    var others := if first.Parsed? then DecodeFields(c, fs[1..], first.rest) else Malformed;
    BothComeBack(first, vs[0], middle, Faithful(c, fs[0].ty, vs[0]),
                 others, vs[1..], tail, FieldsFaithful(c, fs[1..], vs[1..]), DecodeFields(c, fs, b));
    assert vs == [vs[0]] + vs[1..];
  }

  const EMPTY_STRUCT := TStruct("empty", [])

  function EmptyStructs(n: nat): seq<Value> {
    seq(n, _ => VStruct([]))
  }

  lemma {:induction false} EmptyStructsEncode(c: Config, n: nat)
    ensures EncodeAll(c, EMPTY_STRUCT, EmptyStructs(n)) == Some([])
  {
    var vs := EmptyStructs(n);
    if n > 0 {
      EmptyStructsEncode(c, n - 1);
      assert vs == [VStruct([])] + EmptyStructs(n - 1);
      FirstElement(c, EMPTY_STRUCT, VStruct([]), EmptyStructs(n - 1));
      assert Encode(c, EMPTY_STRUCT, VStruct([]), c.maxSliceLen) == Some([]);
      var nothing: bytes := [];
      assert nothing + nothing == nothing;
    }
  }

  // With a slice bound above MaxInt32 there are slices that marshal and do not come back.
  lemma OverlongSlice(c: Config, tail: bytes)
    ensures var ty, v := TSlice(EMPTY_STRUCT), VSeq(EmptyStructs(MAX_INT32 + 1));
            && HasType(c, ty, v) && Encode(c, ty, v, MAX_UINT32).Some?
            && Decode(c, ty, Encode(c, ty, v, MAX_UINT32).value + tail, MAX_UINT32) != Parsed(v, tail)
  {
    var ty, v := TSlice(EMPTY_STRUCT), VSeq(EmptyStructs(MAX_INT32 + 1));
    EmptyStructsEncode(c, MAX_INT32 + 1);
    assert !Faithful(c, ty, v);
    RoundTrip(c, ty, v, MAX_UINT32, tail);
  }
}
