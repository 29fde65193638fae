/**
 Marshalling what was unmarshalled: a value has one encoding.
 */
module CodecCanonical {
  import opened Wrappers
  import opened Bytes
  import opened Codec
  import opened CodecRoundTrip

  // Every array in the value is within the codec's slice bound. marshal checks this, unmarshal does not.
  predicate ArraysFit(c: Config, ty: Ty, v: Value)
    decreases v
  {
    match ty
    case TSlice(e) => v.VSeq? ==> forall x | x in v.elems :: ArraysFit(c, e, x)
    case TArray(_, e) => v.VSeq? ==> Uint32(|v.elems|) <= c.maxSliceLen && forall x | x in v.elems :: ArraysFit(c, e, x)
    case TPtr(e) => v.VPtr? ==> ArraysFit(c, e, v.elem)
    case TStruct(_, fs) =>
      v.VStruct? && |v.fields| == |fs| ==> forall i | 0 <= i < |fs| :: ArraysFit(c, fs[i].ty, v.fields[i])
    case TInterface(_) => v.VInterface? ==> ArraysFit(c, v.ty, v.elem)
    case _ => true
  }

  // Every registered ID is the ID of its type. RegisterType keeps this whatever the IDs (module LinearCodec).
  ghost predicate IdsOk(c: Config) {
    forall id | id in c.typeIDToType :: c.typeIDToType[id] in c.typeToTypeID && c.typeToTypeID[c.typeIDToType[id]] == id
  }

  // `value`, read from b with `rest` left over, is written back as the bytes read.
  ghost predicate WritesBack(b: bytes, rest: bytes, written: Option<bytes>, fits: bool) {
    && |rest| <= |b| && rest == b[|b| - |rest|..]
    && written == if fits then Some(b[..|b| - |rest|]) else None
  }

  lemma UintCanonical(b: bytes, width: nat)
    requires DecodeUint(b, width).Parsed?
    ensures var r := DecodeUint(b, width); b == ToBigEndian(r.value, width) + r.rest && r.value < Pow256(width)
  {
    BigEndianCanonical(b[..width]);
    FromBigEndianBound(b[..width]);
  }

  // `r`, read from b, is a value of the type that comes back, and is written back as the bytes read if
  // and only if its arrays fit.
  ghost predicate ReadBack(c: Config, ty: Ty, b: bytes, maxSliceLen: nat, r: Parsed<Value>) {
    && r.Parsed? && HasType(c, ty, r.value) && Faithful(c, ty, r.value)
    && WritesBack(b, r.rest, Encode(c, ty, r.value, maxSliceLen), ArraysFit(c, ty, r.value))
  }

  // Any bytes that unmarshal to a value are the bytes marshal produces for it, if marshal accepts it;
  // and marshal accepts it if and only if its arrays are within the bound.
  lemma {:induction false} Canonical(c: Config, ty: Ty, b: bytes, maxSliceLen: nat, r: Parsed<Value>)
    requires IdsOk(c) && r == Decode(c, ty, b, maxSliceLen) && r.Parsed?
    ensures ReadBack(c, ty, b, maxSliceLen, r)
    decreases |b|, ty, 1
  {
    match ty {
      case TSlice(_) => SliceCanonical(c, ty, b, maxSliceLen, r);
      case TArray(_, _) => ArrayCanonical(c, ty, b, maxSliceLen, r);
      case TPtr(_) => PtrCanonical(c, ty, b, maxSliceLen, r);
      case TStruct(_, _) => StructCanonical(c, ty, b, maxSliceLen, r);
      case TInterface(_) => InterfaceCanonical(c, ty, b, maxSliceLen, r);
      case _ => ScalarReadBack(c, ty, b, maxSliceLen, r);
    }
  }

  // One byte unmarshals to an array of one byte, which marshal refuses when its slice bound is 0.
  lemma UnmarshalledArrayIsRefused(x: byte)
    ensures var c, ty := Config(map[], map[], {}, 0), TArray(1, TUint(1));
            && Decode(c, ty, [x], 0) == Parsed(VSeq([VInt(x)]), [])
            && Encode(c, ty, VSeq([VInt(x)]), 0) == None
            && !ArraysFit(c, ty, VSeq([VInt(x)]))
  {
    var c := Config(map[], map[], {}, 0);
    assert [x][..1] == [x] && FromBigEndian([x]) == x;
    assert Decode(c, TUint(1), [x], 0) == Parsed(VInt(x), []);
    assert DecodeAll(c, TUint(1), 0, []) == Parsed([], []);
    assert DecodeAll(c, TUint(1), 1, [x]) == Parsed([VInt(x)] + [], []);
    assert [VInt(x)] + [] == [VInt(x)];
  }

  lemma ScalarReadBack(c: Config, ty: Ty, b: bytes, maxSliceLen: nat, r: Parsed<Value>)
    requires r == Decode(c, ty, b, maxSliceLen) && r.Parsed? && (ty.TUint? || ty.TInt? || ty.TBool? || ty.TString?)
    ensures ReadBack(c, ty, b, maxSliceLen, r)
  {
    ScalarCanonical(c, ty, b, maxSliceLen);
  }

  lemma {:induction false} ArrayCanonical(c: Config, ty: Ty, b: bytes, maxSliceLen: nat, r: Parsed<Value>)
    requires IdsOk(c) && ty.TArray? && r == Decode(c, ty, b, maxSliceLen) && r.Parsed?
    ensures ReadBack(c, ty, b, maxSliceLen, r)
    decreases |b|, ty, 0
  {
    var all := DecodeAll(c, ty.elem, ty.len, b);
    AllCanonical(c, ty.elem, ty.len, b, all);
    assert ArraysFit(c, ty, r.value) <==> Uint32(|all.value|) <= c.maxSliceLen && AllFit(c, ty.elem, all.value);
  }

  lemma {:induction false} PtrCanonical(c: Config, ty: Ty, b: bytes, maxSliceLen: nat, r: Parsed<Value>)
    requires IdsOk(c) && ty.TPtr? && r == Decode(c, ty, b, maxSliceLen) && r.Parsed?
    ensures ReadBack(c, ty, b, maxSliceLen, r)
    decreases |b|, ty, 0
  {
    Canonical(c, ty.elem, b, c.maxSliceLen, Decode(c, ty.elem, b, c.maxSliceLen));
  }

  lemma {:induction false} StructCanonical(c: Config, ty: Ty, b: bytes, maxSliceLen: nat, r: Parsed<Value>)
    requires IdsOk(c) && ty.TStruct? && r == Decode(c, ty, b, maxSliceLen) && r.Parsed?
    ensures ReadBack(c, ty, b, maxSliceLen, r)
    decreases |b|, ty, 0
  {
    var all := DecodeFields(c, ty.fields, b);
    FieldsCanonical(c, ty.fields, b, all);
    assert ArraysFit(c, ty, r.value) <==> FieldsFit(c, ty.fields, all.value);
  }

  lemma ScalarCanonical(c: Config, ty: Ty, b: bytes, maxSliceLen: nat)
    requires Decode(c, ty, b, maxSliceLen).Parsed? && (ty.TUint? || ty.TInt? || ty.TBool? || ty.TString?)
    ensures var r := Decode(c, ty, b, maxSliceLen);
            HasType(c, ty, r.value) && WritesBack(b, r.rest, Encode(c, ty, r.value, maxSliceLen), true)
  {
    match ty {
      case TUint(w) =>
        UintCanonical(b, w);
        BitsRoundTrip(DecodeUint(b, w).value, w);
      case TInt(w) =>
        UintCanonical(b, w);
        SignedRange(DecodeUint(b, w).value, w);
      case TBool =>
        UintCanonical(b, 1);
        var n := DecodeUint(b, 1).value;
        assert ToBigEndian(n, 1) == [n];
      case TString =>
        StringCanonical(b);
    }
  }

  lemma SignedRange(n: nat, width: nat)
    requires width in WIDTHS && n < Pow256(width)
    ensures Bits(Signed(n, width), width) == n
    ensures 0 <= 2 * Signed(n, width) + Pow256(width) && 2 * Signed(n, width) < Pow256(width)
  {
    PowerOf256(width);
    ModPower(Signed(n, width), Pow256(width));
  }

  lemma StringCanonical(b: bytes)
    requires DecodeString(b).Parsed?
    ensures var r := DecodeString(b);
            r.value.VString? && |r.value.s| <= MAX_UINT16 && b == ToBigEndian(|r.value.s|, 2) + r.value.s + r.rest
  {
    PowersOf256();
    UintCanonical(b, 2);
    var r := DecodeString(b);
    var len := DecodeUint(b, 2);
    assert len.rest == r.value.s + r.rest;
    assert b == ToBigEndian(|r.value.s|, 2) + (r.value.s + r.rest);
  }

  lemma {:induction false} SliceCanonical(c: Config, ty: Ty, b: bytes, maxSliceLen: nat, r: Parsed<Value>)
    requires IdsOk(c) && ty.TSlice? && r == Decode(c, ty, b, maxSliceLen) && r.Parsed?
    ensures ReadBack(c, ty, b, maxSliceLen, r)
    decreases |b|, ty, 0
  {
    var len := DecodeUint(b, 4);
    UintCanonical(b, 4);
    Uint32Small(len.value);
    var all := DecodeAll(c, ty.elem, len.value, len.rest);
    AllCanonical(c, ty.elem, len.value, len.rest, all);
    AfterHead(b, ToBigEndian(len.value, 4), len.rest, all.rest);
    assert ArraysFit(c, ty, VSeq(all.value)) == AllFit(c, ty.elem, all.value);
  }

  lemma {:induction false} InterfaceCanonical(c: Config, ty: Ty, b: bytes, maxSliceLen: nat, r: Parsed<Value>)
    requires IdsOk(c) && ty.TInterface? && r == Decode(c, ty, b, maxSliceLen) && r.Parsed?
    ensures ReadBack(c, ty, b, maxSliceLen, r)
    decreases |b|, ty, 0
  {
    var id := DecodeUint(b, 4);
    UintCanonical(b, 4);
    var concrete := c.typeIDToType[id.value];
    var inner := Decode(c, concrete, id.rest, c.maxSliceLen);
    Canonical(c, concrete, id.rest, c.maxSliceLen, inner);
    InterfaceReadBack(c, ty.name, b, maxSliceLen, id.value, id.rest, concrete, inner);
  }

  // The ID of a registered type, followed by what reads back as a value of the type.
  lemma InterfaceReadBack(c: Config, name: string, b: bytes, maxSliceLen: nat, id: uint32, body: bytes,
                          concrete: Ty, inner: Parsed<Value>)
    requires id in c.typeIDToType && c.typeIDToType[id] == concrete && (concrete, name) in c.implements
    requires concrete in c.typeToTypeID && c.typeToTypeID[concrete] == id && b == ToBigEndian(id, 4) + body
    requires ReadBack(c, concrete, body, c.maxSliceLen, inner)
    ensures ReadBack(c, TInterface(name), b, maxSliceLen, Parsed(VInterface(concrete, inner.value), inner.rest))
  {
    AfterHead(b, ToBigEndian(id, 4), body, inner.rest);
    var v := VInterface(concrete, inner.value);
    assert Encode(c, TInterface(name), v, maxSliceLen) ==
           Prepend(ToBigEndian(id, 4), Encode(c, concrete, inner.value, c.maxSliceLen));
  }

  lemma AfterHead(b: bytes, head: bytes, body: bytes, rest: bytes)
    requires b == head + body && |rest| <= |body| && rest == body[|body| - |rest|..]
    ensures |rest| <= |b| && rest == b[|b| - |rest|..] && b[..|b| - |rest|] == head + body[..|body| - |rest|]
  {
  }

  ghost predicate AllFit(c: Config, ty: Ty, vs: seq<Value>) {
    forall x | x in vs :: ArraysFit(c, ty, x)
  }

  ghost predicate AllReadBack(c: Config, ty: Ty, b: bytes, r: Parsed<seq<Value>>) {
    && r.Parsed? && AllTyped(c, ty, r.value) && AllFaithful(c, ty, r.value)
    && WritesBack(b, r.rest, EncodeAll(c, ty, r.value), AllFit(c, ty, r.value))
  }

  lemma {:induction false} AllCanonical(c: Config, ty: Ty, n: nat, b: bytes, r: Parsed<seq<Value>>)
    requires IdsOk(c) && r == DecodeAll(c, ty, n, b) && r.Parsed?
    ensures AllReadBack(c, ty, b, r)
    decreases |b|, ty, 2 * n + 3
  {
    if n == 0 {
      NothingReadBack(c, ty, b);
    } else {
      MoreCanonical(c, ty, n, b, r);
    }
  }

  lemma {:induction false} MoreCanonical(c: Config, ty: Ty, n: nat, b: bytes, r: Parsed<seq<Value>>)
    requires IdsOk(c) && n > 0 && r == DecodeAll(c, ty, n, b) && r.Parsed?
    ensures AllReadBack(c, ty, b, r)
    decreases |b|, ty, 2 * n + 2
  {
    var first, others := SplitAll(c, ty, n, b, r);
    AllCanonical(c, ty, n - 1, first.rest, others);
    FirstCanonical(c, ty, b, first, others, r);
  }

  lemma SplitAll(c: Config, ty: Ty, n: nat, b: bytes, r: Parsed<seq<Value>>)
    returns (first: Parsed<Value>, others: Parsed<seq<Value>>)
    requires n > 0 && r == DecodeAll(c, ty, n, b) && r.Parsed?
    ensures first == Decode(c, ty, b, c.maxSliceLen) && first.Parsed? && |first.rest| <= |b|
    ensures others == DecodeAll(c, ty, n - 1, first.rest) && others.Parsed?
    ensures r == Parsed([first.value] + others.value, others.rest)
  {
    first := Decode(c, ty, b, c.maxSliceLen);
    others := DecodeAll(c, ty, n - 1, first.rest);
  }

  lemma NothingReadBack(c: Config, ty: Ty, b: bytes)
    ensures AllReadBack(c, ty, b, Parsed([], b))
  {
    assert b[|b|..] == [] && b[0..] == b && b[..0] == [];
  }

  lemma {:induction false} FirstCanonical(c: Config, ty: Ty, b: bytes, first: Parsed<Value>,
                                          others: Parsed<seq<Value>>, r: Parsed<seq<Value>>)
    requires IdsOk(c) && first == Decode(c, ty, b, c.maxSliceLen) && first.Parsed?
    requires AllReadBack(c, ty, first.rest, others) && r == Parsed([first.value] + others.value, others.rest)
    ensures AllReadBack(c, ty, b, r)
    decreases |b|, ty, 2
  {
    Canonical(c, ty, b, c.maxSliceLen, first);
    FirstReadBack(c, ty, b, first, others);
  }

  lemma FirstReadBack(c: Config, ty: Ty, b: bytes, first: Parsed<Value>, others: Parsed<seq<Value>>)
    requires ReadBack(c, ty, b, c.maxSliceLen, first) && AllReadBack(c, ty, first.rest, others)
    ensures AllReadBack(c, ty, b, Parsed([first.value] + others.value, others.rest))
  {
    WriteFirst(c, ty, b, first.value, first.rest, others.value, others.rest);
    AllSplit(c, ty, first.value, others.value);
  }

  // What reads the first element and then the others writes them back together.
  lemma WriteFirst(c: Config, ty: Ty, b: bytes, v: Value, middle: bytes, vs: seq<Value>, rest: bytes)
    requires WritesBack(b, middle, Encode(c, ty, v, c.maxSliceLen), ArraysFit(c, ty, v))
    requires WritesBack(middle, rest, EncodeAll(c, ty, vs), AllFit(c, ty, vs))
    ensures WritesBack(b, rest, EncodeAll(c, ty, [v] + vs), AllFit(c, ty, [v] + vs))
  {
    FirstElement(c, ty, v, vs);
    JoinWritten(b, middle, rest);
    AllSplit(c, ty, v, vs);
  }

  ghost predicate AllTyped(c: Config, ty: Ty, vs: seq<Value>) {
    forall x | x in vs :: HasType(c, ty, x)
  }

  lemma AllSplit(c: Config, ty: Ty, v: Value, vs: seq<Value>)
    ensures AllFit(c, ty, [v] + vs) <==> ArraysFit(c, ty, v) && AllFit(c, ty, vs)
    ensures AllTyped(c, ty, [v] + vs) <==> HasType(c, ty, v) && AllTyped(c, ty, vs)
    ensures AllFaithful(c, ty, [v] + vs) <==> Faithful(c, ty, v) && AllFaithful(c, ty, vs)
    ensures ([v] + vs)[1..] == vs
  {
    AllFitSplit(c, ty, v, vs);
    AllTypedSplit(c, ty, v, vs);
    AllFaithfulSplit(c, ty, [v] + vs);
  }

  lemma AllFitSplit(c: Config, ty: Ty, v: Value, vs: seq<Value>)
    ensures AllFit(c, ty, [v] + vs) <==> ArraysFit(c, ty, v) && AllFit(c, ty, vs)
  {
    var all := [v] + vs;
    assert v in all && forall x | x in vs :: x in all;
  }

  lemma AllTypedSplit(c: Config, ty: Ty, v: Value, vs: seq<Value>)
    ensures AllTyped(c, ty, [v] + vs) <==> HasType(c, ty, v) && AllTyped(c, ty, vs)
  {
    var all := [v] + vs;
    assert v in all && forall x | x in vs :: x in all;
  }

  lemma JoinWritten(b: bytes, middle: bytes, rest: bytes)
    requires |rest| <= |middle| <= |b| && middle == b[|b| - |middle|..] && rest == middle[|middle| - |rest|..]
    ensures rest == b[|b| - |rest|..] && b[..|b| - |rest|] == b[..|b| - |middle|] + middle[..|middle| - |rest|]
  {
  }

  ghost predicate FieldsFit(c: Config, fs: seq<Field>, vs: seq<Value>)
    requires |fs| == |vs|
  {
    forall i | 0 <= i < |fs| :: ArraysFit(c, fs[i].ty, vs[i])
  }

  ghost predicate FieldsTyped(c: Config, fs: seq<Field>, vs: seq<Value>)
    requires |fs| == |vs|
  {
    forall i | 0 <= i < |fs| :: HasType(c, fs[i].ty, vs[i])
  }

  ghost predicate FieldsReadBack(c: Config, fs: seq<Field>, b: bytes, r: Parsed<seq<Value>>) {
    && r.Parsed? && |r.value| == |fs| && FieldsTyped(c, fs, r.value) && FieldsFaithful(c, fs, r.value)
    && WritesBack(b, r.rest, EncodeFields(c, fs, r.value), FieldsFit(c, fs, r.value))
  }

  lemma {:induction false} FieldsCanonical(c: Config, fs: seq<Field>, b: bytes, r: Parsed<seq<Value>>)
    requires IdsOk(c) && r == DecodeFields(c, fs, b) && r.Parsed?
    ensures FieldsReadBack(c, fs, b, r)
    decreases |b|, fs, 0
  {
    if fs != [] {
      var first, others := SplitFields(c, fs, b, r);
      FieldCanonical(c, fs[0], b, first);
      FieldsCanonical(c, fs[1..], first.rest, others);
      FirstFieldReadBack(c, fs, b, first, others, r);
    }
  }

  lemma SplitFields(c: Config, fs: seq<Field>, b: bytes, r: Parsed<seq<Value>>)
    returns (first: Parsed<Value>, others: Parsed<seq<Value>>)
    requires fs != [] && r == DecodeFields(c, fs, b) && r.Parsed?
    ensures first == DecodeField(c, fs[0], b) && first.Parsed? && |first.rest| <= |b|
    ensures others == DecodeFields(c, fs[1..], first.rest) && others.Parsed?
    ensures r == Parsed([first.value] + others.value, others.rest)
  {
    first := DecodeField(c, fs[0], b);
    others := DecodeFields(c, fs[1..], first.rest);
  }

  lemma FirstFieldReadBack(c: Config, fs: seq<Field>, b: bytes, first: Parsed<Value>, others: Parsed<seq<Value>>,
                           r: Parsed<seq<Value>>)
    requires fs != [] && ReadBack(c, fs[0].ty, b, fs[0].maxSliceLen, first)
    requires FieldsReadBack(c, fs[1..], first.rest, others) && r == Parsed([first.value] + others.value, others.rest)
    ensures FieldsReadBack(c, fs, b, r)
  {
    WriteFirstField(c, fs[0], fs[1..], b, first.value, first.rest, others.value, others.rest);
    assert fs == [fs[0]] + fs[1..];
    assert ([first.value] + others.value)[1..] == others.value;
    FieldsSplit(c, fs, [first.value] + others.value);
  }

  lemma WriteFirstField(c: Config, f: Field, fs: seq<Field>, b: bytes, v: Value, middle: bytes, vs: seq<Value>,
                        rest: bytes)
    requires |fs| == |vs| && WritesBack(b, middle, Encode(c, f.ty, v, f.maxSliceLen), ArraysFit(c, f.ty, v))
    requires WritesBack(middle, rest, EncodeFields(c, fs, vs), FieldsFit(c, fs, vs))
    ensures WritesBack(b, rest, EncodeFields(c, [f] + fs, [v] + vs), FieldsFit(c, [f] + fs, [v] + vs))
  {
    FirstField(c, f, fs, v, vs);
    JoinWritten(b, middle, rest);
    assert ([f] + fs)[1..] == fs && ([v] + vs)[1..] == vs;
    FieldsSplit(c, [f] + fs, [v] + vs);
  }

  lemma FieldsSplit(c: Config, fs: seq<Field>, vs: seq<Value>)
    requires |fs| == |vs| && fs != []
    ensures FieldsFit(c, fs, vs) <==> ArraysFit(c, fs[0].ty, vs[0]) && FieldsFit(c, fs[1..], vs[1..])
    ensures FieldsTyped(c, fs, vs) <==> HasType(c, fs[0].ty, vs[0]) && FieldsTyped(c, fs[1..], vs[1..])
    ensures FieldsFaithful(c, fs, vs) <==> Faithful(c, fs[0].ty, vs[0]) && FieldsFaithful(c, fs[1..], vs[1..])
  {
    assert forall i | 0 < i < |fs| :: fs[i] == fs[1..][i - 1] && vs[i] == vs[1..][i - 1];
  }

  lemma {:induction false} FieldCanonical(c: Config, f: Field, b: bytes, r: Parsed<Value>)
    requires IdsOk(c) && r == DecodeField(c, f, b) && r.Parsed?
    ensures ReadBack(c, f.ty, b, f.maxSliceLen, r)
    decreases |b|, f, 0
  {
    Canonical(c, f.ty, b, f.maxSliceLen, r);
  }
}
