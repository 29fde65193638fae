/**
 The wire format of codec/reflectcodec: what genericCodec.marshal and unmarshal compute for a
 value of a given type, with the interface registry of codec/linearcodec.

 A slice and a nil slice are not distinguished, as in the source. Only the serialized fields of a
 struct are values of the model.
 */
module Codec {
  import opened Wrappers
  import opened Bytes

  // A reflect.Type, as far as the codec looks at it. Interfaces are known by name, so types are
  // finite trees and interface values may nest.
  datatype Ty =
    | TUint(width: nat)
    | TInt(width: nat)
    | TBool
    | TString
    | TSlice(elem: Ty)
    | TArray(len: nat, elem: Ty)
    | TPtr(elem: Ty)
    | TStruct(name: string, fields: seq<Field>)
    | TInterface(name: string)
    | TOther(name: string)

  // A field with the serialize tag, and the slice bound of its len tag or of the codec.
  datatype Field = Field(exported: bool, maxSliceLen: nat, ty: Ty)

  datatype Value =
    | VInt(n: int)
    | VBool(b: bool)
    | VString(s: bytes)
    | VSeq(elems: seq<Value>)
    | VNil
    | VPtr(elem: Value)
    | VStruct(fields: seq<Value>)
    | VInterface(ty: Ty, elem: Value)

  // What marshalling depends on: the registry, which concrete types implement which interface, and
  // the slice bound.
  datatype Config = Config(
    typeToTypeID: map<Ty, uint32>,
    typeIDToType: map<uint32, Ty>,
    implements: set<(Ty, string)>,
    maxSliceLen: nat)

  const WIDTHS: set<nat> := {1, 2, 4, 8}

  // ---------- Values of a type ----------

  predicate HasType(c: Config, ty: Ty, v: Value)
    decreases v
  {
    match ty
    case TUint(w) => v.VInt? && w in WIDTHS && 0 <= v.n < Pow256(w)
    case TInt(w) => v.VInt? && w in WIDTHS && 0 <= 2 * v.n + Pow256(w) && 2 * v.n < Pow256(w)
    case TBool => v.VBool?
    case TString => v.VString?
    case TSlice(e) => v.VSeq? && forall x | x in v.elems :: HasType(c, e, x)
    case TArray(n, e) => v.VSeq? && |v.elems| == n && forall x | x in v.elems :: HasType(c, e, x)
    case TPtr(e) => v.VNil? || (v.VPtr? && HasType(c, e, v.elem))
    case TStruct(_, fs) =>
      v.VStruct? && |v.fields| == |fs| && forall i | 0 <= i < |fs| :: HasType(c, fs[i].ty, v.fields[i])
    case TInterface(name) => v.VNil? || (v.VInterface? && (v.ty, name) in c.implements && HasType(c, v.ty, v.elem))
    case TOther(_) => false
  }

  // ---------- Marshal ----------

  // The two's complement bits of n in `width` bytes.
  function Bits(n: int, width: nat): nat {
    n % Pow256(width)
  }

  // SetInt keeps the low-order bits and reads them as a signed number.
  function Signed(n: nat, width: nat): int {
    if 2 * n < Pow256(width) then n else n - Pow256(width)
  }

  // uint32(n)
  function Uint32(n: nat): uint32 {
    n % 0x1_0000_0000
  }

  function Encode(c: Config, ty: Ty, v: Value, maxSliceLen: nat): Option<bytes>
    decreases v, 1
  {
    match ty
    case TUint(w) => if v.VInt? && w in WIDTHS then Some(ToBigEndian(Bits(v.n, w), w)) else None
    case TInt(w) => if v.VInt? && w in WIDTHS then Some(ToBigEndian(Bits(v.n, w), w)) else None
    case TBool => if v.VBool? then Some([if v.b then 1 else 0]) else None
    case TString => if v.VString? && |v.s| <= MAX_UINT16 then Some(ToBigEndian(|v.s|, 2) + v.s) else None
    case TSlice(e) =>
      if v.VSeq? && Uint32(|v.elems|) <= maxSliceLen then
        Prepend(ToBigEndian(Uint32(|v.elems|), 4), EncodeAll(c, e, v.elems))
      else None
    case TArray(n, e) => if v.VSeq? && Uint32(|v.elems|) <= c.maxSliceLen then EncodeAll(c, e, v.elems) else None
    case TPtr(e) => if v.VPtr? then Encode(c, e, v.elem, c.maxSliceLen) else None
    case TStruct(_, fs) =>
      if v.VStruct? && |v.fields| == |fs| && AllExported(fs) then EncodeFields(c, fs, v.fields) else None
    case TInterface(_) =>
      if v.VInterface? && v.ty in c.typeToTypeID then
        Prepend(ToBigEndian(c.typeToTypeID[v.ty], 4), Encode(c, v.ty, v.elem, c.maxSliceLen))
      else None
    case TOther(_) => None
  }

  function EncodeAll(c: Config, ty: Ty, vs: seq<Value>): Option<bytes>
    decreases vs, 0
  {
    if vs == [] then Some([])
    else
      match Encode(c, ty, vs[0], c.maxSliceLen)
      case None => None
      case Some(b) => Prepend(b, EncodeAll(c, ty, vs[1..]))
  }

  function EncodeFields(c: Config, fs: seq<Field>, vs: seq<Value>): Option<bytes>
    requires |fs| == |vs|
    decreases vs, 0
  {
    if vs == [] then Some([])
    else
      match Encode(c, fs[0].ty, vs[0], fs[0].maxSliceLen)
      case None => None
      case Some(b) => Prepend(b, EncodeFields(c, fs[1..], vs[1..]))
  }

  // Elements marshal one after the other.
  lemma FirstElement(c: Config, ty: Ty, v: Value, vs: seq<Value>)
    ensures EncodeAll(c, ty, [v] + vs) ==
            match Encode(c, ty, v, c.maxSliceLen)
            case None => None
            case Some(b) => Prepend(b, EncodeAll(c, ty, vs))
  {
    assert ([v] + vs)[1..] == vs;
  }

  // Fields marshal one after the other.
  lemma FirstField(c: Config, f: Field, fs: seq<Field>, v: Value, vs: seq<Value>)
    requires |fs| == |vs|
    ensures EncodeFields(c, [f] + fs, [v] + vs) ==
            match Encode(c, f.ty, v, f.maxSliceLen)
            case None => None
            case Some(b) => Prepend(b, EncodeFields(c, fs, vs))
  {
    assert ([f] + fs)[1..] == fs && ([v] + vs)[1..] == vs;
  }

  lemma FieldSizes(c: Config, f: Field, fs: seq<Field>, v: Value, vs: seq<Value>)
    requires |fs| == |vs|
    ensures var r, e, rest :=
            EncodeFields(c, [f] + fs, [v] + vs), Encode(c, f.ty, v, f.maxSliceLen), EncodeFields(c, fs, vs);
            (r.Some? <==> e.Some? && rest.Some?) && (r.Some? ==> |r.value| == |e.value| + |rest.value|)
  {
    FirstField(c, f, fs, v, vs);
  }

  function Prepend(b: bytes, rest: Option<bytes>): Option<bytes> {
    match rest
    case None => None
    case Some(r) => Some(b + r)
  }

  predicate AllExported(fs: seq<Field>) {
    forall f | f in fs :: f.exported
  }

  // ---------- Unmarshal ----------

  datatype Parsed<T> = Parsed(value: T, rest: bytes) | Malformed

  function Take(b: bytes, n: nat): (r: Parsed<bytes>)
    ensures r.Parsed? ==> |r.value| == n && b == r.value + r.rest
  {
    if n <= |b| then Parsed(b[..n], b[n..]) else Malformed
  }

  function DecodeUint(b: bytes, width: nat): (r: Parsed<nat>)
    ensures r.Parsed? ==> |b| == width + |r.rest|
  {
    match Take(b, width)
    case Malformed => Malformed
    case Parsed(taken, rest) => Parsed(FromBigEndian(taken), rest)
  }

  function DecodeString(b: bytes): (r: Parsed<Value>)
    ensures r.Parsed? ==> |r.rest| <= |b|
  {
    match DecodeUint(b, 2)
    case Malformed => Malformed
    case Parsed(n, rest) =>
      match Take(rest, n)
      case Malformed => Malformed
      case Parsed(s, rest') => Parsed(VString(s), rest')
  }

  function Decode(c: Config, ty: Ty, b: bytes, maxSliceLen: nat): (r: Parsed<Value>)
    ensures r.Parsed? ==> |r.rest| <= |b|
    decreases |b|, ty, 0
  {
    match ty
    case TUint(w) =>
      if w !in WIDTHS then Malformed
      else (match DecodeUint(b, w) case Malformed => Malformed case Parsed(n, rest) => Parsed(VInt(n), rest))
    case TInt(w) =>
      if w !in WIDTHS then Malformed
      else (match DecodeUint(b, w) case Malformed => Malformed case Parsed(n, rest) => Parsed(VInt(Signed(n, w)), rest))
    case TBool =>
      (match DecodeUint(b, 1)
       case Malformed => Malformed
       case Parsed(n, rest) =>
         if n == 0 then Parsed(VBool(false), rest) else if n == 1 then Parsed(VBool(true), rest) else Malformed)
    case TString => DecodeString(b)
    case TSlice(e) =>
      (match DecodeUint(b, 4)
       case Malformed => Malformed
       case Parsed(n, rest) =>
         if n > maxSliceLen || n > MAX_INT32 then Malformed
         else Wrap(DecodeAll(c, e, n, rest)))
    case TArray(n, e) => Wrap(DecodeAll(c, e, n, b))
    case TPtr(e) =>
      (match Decode(c, e, b, c.maxSliceLen) case Malformed => Malformed case Parsed(v, rest) => Parsed(VPtr(v), rest))
    case TStruct(_, fs) =>
      if !AllExported(fs) then Malformed
      else (match DecodeFields(c, fs, b) case Malformed => Malformed case Parsed(vs, rest) => Parsed(VStruct(vs), rest))
    case TInterface(name) =>
      (match DecodeUint(b, 4)
       case Malformed => Malformed
       case Parsed(id, rest) =>
         if id !in c.typeIDToType || (c.typeIDToType[id], name) !in c.implements then Malformed
         else
           match Decode(c, c.typeIDToType[id], rest, c.maxSliceLen)
           case Malformed => Malformed
           case Parsed(v, rest') => Parsed(VInterface(c.typeIDToType[id], v), rest'))
    case TOther(_) => Malformed
  }

  function DecodeAll(c: Config, ty: Ty, n: nat, b: bytes): (r: Parsed<seq<Value>>)
    ensures r.Parsed? ==> |r.rest| <= |b| && |r.value| == n
    decreases |b|, ty, n
  {
    if n == 0 then Parsed([], b)
    else
      match Decode(c, ty, b, c.maxSliceLen)
      case Malformed => Malformed
      case Parsed(v, rest) =>
        match DecodeAll(c, ty, n - 1, rest)
        case Malformed => Malformed
        case Parsed(vs, rest') => Parsed([v] + vs, rest')
  }

  function DecodeField(c: Config, f: Field, b: bytes): (r: Parsed<Value>)
    ensures r.Parsed? ==> |r.rest| <= |b|
    decreases |b|, f, 0
  {
    Decode(c, f.ty, b, f.maxSliceLen)
  }

  function DecodeFields(c: Config, fs: seq<Field>, b: bytes): (r: Parsed<seq<Value>>)
    ensures r.Parsed? ==> |r.rest| <= |b| && |r.value| == |fs|
    decreases |b|, fs, 0
  {
    if fs == [] then Parsed([], b)
    else
      match DecodeField(c, fs[0], b)
      case Malformed => Malformed
      case Parsed(v, rest) =>
        match DecodeFields(c, fs[1..], rest)
        case Malformed => Malformed
        case Parsed(vs, rest') => Parsed([v] + vs, rest')
  }

  function Wrap(p: Parsed<seq<Value>>): Parsed<Value> {
    match p
    case Malformed => Malformed
    case Parsed(vs, rest) => Parsed(VSeq(vs), rest)
  }
}
