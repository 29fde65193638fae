/**
 codec/reflectcodec/type_codec.go: marshal and unmarshal over a mutable packer compute the wire
 format of module Codec.
 */
module ReflectCodec {
  import opened Wrappers
  import opened Bytes
  import opened Codec
  import opened Packing

  // ---------- Byte slices are packed in one piece ----------

  function RawBytes(vs: seq<Value>): bytes
    requires forall v | v in vs :: v.VInt? && 0 <= v.n < 256
  {
    seq(|vs|, i requires 0 <= i < |vs| => vs[i].n)
  }

  lemma ByteRange(c: Config, vs: seq<Value>)
    requires forall v | v in vs :: HasType(c, TUint(1), v)
    ensures forall v | v in vs :: v.VInt? && 0 <= v.n < 256
  {
    assert Pow256(0) == 1 && Pow256(1) == 256;
    forall v | v in vs
      ensures v.VInt? && 0 <= v.n < 256
    {
      assert HasType(c, TUint(1), v);
    }
  }

  // Packing the elements one by one gives the same bytes.
  lemma {:induction false} RawBytesEncode(c: Config, vs: seq<Value>)
    requires forall v | v in vs :: v.VInt? && 0 <= v.n < 256
    ensures EncodeAll(c, TUint(1), vs) == Some(RawBytes(vs))
  {
    if vs == [] {
      assert RawBytes(vs) == [];
    } else {
      RawBytesEncode(c, vs[1..]);
      assert vs[0] in vs;
      assert Pow256(0) == 1 && Pow256(1) == 256;
      assert ToBigEndian(vs[0].n, 1) == ToBigEndian(vs[0].n / 256, 0) + [vs[0].n % 256] == [vs[0].n];
      assert Encode(c, TUint(1), vs[0], c.maxSliceLen) == Some([vs[0].n]);
      assert RawBytes(vs) == [vs[0].n] + RawBytes(vs[1..]);
    }
  }

  function Ints(b: bytes): (vs: seq<Value>)
    ensures |vs| == |b|
  {
    seq(|b|, i requires 0 <= i < |b| => VInt(b[i]))
  }

  lemma {:induction false} RawBytesDecode(c: Config, n: nat, b: bytes)
    ensures DecodeAll(c, TUint(1), n, b) ==
              match Take(b, n) case Malformed => Malformed case Parsed(taken, rest) => Parsed(Ints(taken), rest)
  {
    if n > 0 && b != [] {
      RawBytesDecode(c, n - 1, b[1..]);
      FirstByte(c, b);
      if n <= |b| {
        TakeMore(b, n);
      }
    }
  }

  lemma FirstByte(c: Config, b: bytes)
    requires b != []
    ensures Decode(c, TUint(1), b, c.maxSliceLen) == Parsed(VInt(b[0]), b[1..])
  {
    assert b[..1] == [b[0]] && FromBigEndian([b[0]]) == FromBigEndian([b[0]][..0]) * 256 + b[0] == b[0];
  }

  lemma TakeMore(b: bytes, n: nat)
    requires 0 < n <= |b|
    ensures [VInt(b[0])] + Ints(b[1..][..n - 1]) == Ints(b[..n]) && b[1..][n - 1..] == b[n..]
  {
  }

  // ---------- marshal ----------

  // The encoding exists and the packer has room for it.
  predicate Fits(encoded: Option<bytes>, used: nat, maxSize: int) {
    encoded.Some? && (encoded.value == [] || used + |encoded.value| <= maxSize)
  }

  method Marshal(c: Config, ty: Ty, v: Value, maxSliceLen: nat, p: Packer) returns (ok: bool)
    requires HasType(c, ty, v) && p.Appending()
    modifies p
    ensures ok <==> Fits(Encode(c, ty, v, maxSliceLen), |old(p.bytes)|, p.maxSize)
    ensures ok ==> p.Appending() && p.bytes == old(p.bytes) + Encode(c, ty, v, maxSliceLen).value
    decreases v, 1
  {
    if v.VNil? {
      return false;
    }
    match ty {
      case TUint(w) => ok := MarshalScalar(ToBigEndian(Bits(v.n, w), w), p);
      case TInt(w) => ok := MarshalScalar(ToBigEndian(Bits(v.n, w), w), p);
      case TBool => ok := MarshalScalar([if v.b then 1 else 0], p);
      case TString => ok := MarshalString(v.s, p);
      case TPtr(e) => ok := Marshal(c, e, v.elem, c.maxSliceLen, p);
      case TInterface(_) => ok := MarshalInterface(c, v, p);
      case TSlice(e) => ok := MarshalSlice(c, e, v, maxSliceLen, p);
      case TArray(_, e) =>
        if Uint32(|v.elems|) > c.maxSliceLen {
          return false;
        }
        ok := MarshalElements(c, e, v.elems, p);
      case TStruct(_, fs) =>
        if !AllExported(fs) {
          return false;
        }
        ok := MarshalFields(c, fs, v.fields, p);
    }
  }

  method MarshalScalar(b: bytes, p: Packer) returns (ok: bool)
    requires b != [] && p.Appending()
    modifies p
    ensures ok <==> |old(p.bytes)| + |b| <= p.maxSize
    ensures ok ==> p.Appending() && p.bytes == old(p.bytes) + b
  {
    p.PackFixedBytes(b);
    ok := !p.errored;
  }

  method MarshalString(s: bytes, p: Packer) returns (ok: bool)
    requires p.Appending()
    modifies p
    ensures ok <==> |s| <= MAX_UINT16 && |old(p.bytes)| + |ToBigEndian(|s|, 2) + s| <= p.maxSize
    ensures ok ==> p.Appending() && p.bytes == old(p.bytes) + (ToBigEndian(|s|, 2) + s)
  {
    if |s| > MAX_UINT16 {
      return false;
    }
    p.PackUint(|s|, 2);
    if p.errored {
      return false;
    }
    p.PackFixedBytes(s);
    ok := !p.errored;
  }

  // The concrete type's ID, then the value.
  method MarshalInterface(c: Config, v: Value, p: Packer) returns (ok: bool)
    requires v.VInterface? && HasType(c, v.ty, v.elem) && p.Appending()
    modifies p
    ensures ok <==> v.ty in c.typeToTypeID &&
                    Fits(Prepend(ToBigEndian(c.typeToTypeID[v.ty], 4), Encode(c, v.ty, v.elem, c.maxSliceLen)),
                         |old(p.bytes)|, p.maxSize)
    ensures ok ==> p.Appending() && p.bytes == old(p.bytes) +
                   Prepend(ToBigEndian(c.typeToTypeID[v.ty], 4), Encode(c, v.ty, v.elem, c.maxSliceLen)).value
    decreases v, 0
  {
    if v.ty !in c.typeToTypeID {
      return false;
    }
    ghost var head := ToBigEndian(c.typeToTypeID[v.ty], 4);
    p.PackUint(c.typeToTypeID[v.ty], 4);
    if p.errored {
      return false;
    }
    ok := Marshal(c, v.ty, v.elem, c.maxSliceLen, p);
    FitsAfter(head, Encode(c, v.ty, v.elem, c.maxSliceLen), |old(p.bytes)|, p.maxSize);
  }

  // The length, then the elements.
  method MarshalSlice(c: Config, e: Ty, v: Value, maxSliceLen: nat, p: Packer) returns (ok: bool)
    requires v.VSeq? && (forall x | x in v.elems :: HasType(c, e, x)) && p.Appending()
    modifies p
    ensures ok <==> Uint32(|v.elems|) <= maxSliceLen &&
                    Fits(Prepend(ToBigEndian(Uint32(|v.elems|), 4), EncodeAll(c, e, v.elems)), |old(p.bytes)|,
                         p.maxSize)
    ensures ok ==> p.Appending() && p.bytes == old(p.bytes) +
                   Prepend(ToBigEndian(Uint32(|v.elems|), 4), EncodeAll(c, e, v.elems)).value
    decreases v, 0
  {
    if Uint32(|v.elems|) > maxSliceLen {
      return false;
    }
    ghost var head := ToBigEndian(Uint32(|v.elems|), 4);
    p.PackUint(Uint32(|v.elems|), 4);
    if p.errored {
      return false;
    }
    FitsAfter(head, EncodeAll(c, e, v.elems), |old(p.bytes)|, p.maxSize);
    if e == TUint(1) {
      ByteRange(c, v.elems);
      RawBytesEncode(c, v.elems);
      p.PackFixedBytes(RawBytes(v.elems));
      return !p.errored;
    }
    ok := MarshalElements(c, e, v.elems, p);
  }

  // What follows a head that fits.
  lemma FitsAfter(head: bytes, rest: Option<bytes>, used: nat, maxSize: int)
    requires head != [] && used + |head| <= maxSize
    ensures Fits(Prepend(head, rest), used, maxSize) <==> Fits(rest, used + |head|, maxSize)
  {
  }

  // If one of the parts does not fit the whole does not.
  lemma NotAllFit(done: bytes, b: Option<bytes>, rest: Option<bytes>, whole: Option<bytes>, used: nat, maxSize: int)
    requires !Fits(b, used + |done|, maxSize)
    requires whole == if b.None? then None else Prepend(done + b.value, rest)
    ensures !Fits(whole, used, maxSize)
  {
  }

  lemma NextElement(c: Config, ty: Ty, vs: seq<Value>, i: nat, done: bytes, whole: Option<bytes>)
    requires i < |vs| && whole == Prepend(done, EncodeAll(c, ty, vs[i..]))
    ensures var b := Encode(c, ty, vs[i], c.maxSliceLen);
            whole == if b.None? then None else Prepend(done + b.value, EncodeAll(c, ty, vs[i + 1..]))
  {
    assert vs[i..] == [vs[i]] + vs[i + 1..];
    FirstElement(c, ty, vs[i], vs[i + 1..]);
    var b := Encode(c, ty, vs[i], c.maxSliceLen);
    if b.Some? {
      PrependTwice(done, b.value, EncodeAll(c, ty, vs[i + 1..]));
    }
  }

  lemma NextField(c: Config, fs: seq<Field>, vs: seq<Value>, i: nat, done: bytes, whole: Option<bytes>)
    requires |fs| == |vs| && i < |vs| && whole == Prepend(done, EncodeFields(c, fs[i..], vs[i..]))
    ensures var b := Encode(c, fs[i].ty, vs[i], fs[i].maxSliceLen);
            whole == if b.None? then None else Prepend(done + b.value, EncodeFields(c, fs[i + 1..], vs[i + 1..]))
  {
    assert fs[i..] == [fs[i]] + fs[i + 1..] && vs[i..] == [vs[i]] + vs[i + 1..];
    FirstField(c, fs[i], fs[i + 1..], vs[i], vs[i + 1..]);
    var b := Encode(c, fs[i].ty, vs[i], fs[i].maxSliceLen);
    if b.Some? {
      PrependTwice(done, b.value, EncodeFields(c, fs[i + 1..], vs[i + 1..]));
    }
  }

  lemma PrependTwice(a: bytes, b: bytes, rest: Option<bytes>)
    ensures Prepend(a, Prepend(b, rest)) == Prepend(a + b, rest)
    ensures Prepend([], rest) == rest
  {
    if rest.Some? {
      assert a + (b + rest.value) == a + b + rest.value;
      assert [] + rest.value == rest.value;
    }
  }

  method MarshalElements(c: Config, ty: Ty, vs: seq<Value>, p: Packer) returns (ok: bool)
    requires (forall v | v in vs :: HasType(c, ty, v)) && p.Appending()
    modifies p
    ensures ok <==> Fits(EncodeAll(c, ty, vs), |old(p.bytes)|, p.maxSize)
    ensures ok ==> p.Appending() && p.bytes == old(p.bytes) + EncodeAll(c, ty, vs).value
    decreases vs, 0
  {
    ghost var start, whole := p.bytes, EncodeAll(c, ty, vs);
    ghost var done: bytes := [];
    PrependTwice([], [], whole);
    assert vs[0..] == vs;
    for i := 0 to |vs|
      invariant p.Appending() && p.bytes == start + done
      invariant whole == Prepend(done, EncodeAll(c, ty, vs[i..]))
      invariant done == [] || |start| + |done| <= p.maxSize
    {
      ghost var b := Encode(c, ty, vs[i], c.maxSliceLen);
      NextElement(c, ty, vs, i, done, whole);
      assert vs[i] in vs;
      var elementOk := Marshal(c, ty, vs[i], c.maxSliceLen, p);
      if !elementOk {
        NotAllFit(done, b, EncodeAll(c, ty, vs[i + 1..]), whole, |start|, p.maxSize);
        return false;
      }
      Regroup(start, done, b.value);
      done := done + b.value;
    }
    assert vs[|vs|..] == [];
    return true;
  }

  method MarshalFields(c: Config, fs: seq<Field>, vs: seq<Value>, p: Packer) returns (ok: bool)
    requires |fs| == |vs| && (forall i | 0 <= i < |fs| :: HasType(c, fs[i].ty, vs[i])) && p.Appending()
    modifies p
    ensures ok <==> Fits(EncodeFields(c, fs, vs), |old(p.bytes)|, p.maxSize)
    ensures ok ==> p.Appending() && p.bytes == old(p.bytes) + EncodeFields(c, fs, vs).value
    decreases vs, 0
  {
    ghost var start, whole := p.bytes, EncodeFields(c, fs, vs);
    ghost var done: bytes := [];
    PrependTwice([], [], whole);
    assert vs[0..] == vs && fs[0..] == fs;
    for i := 0 to |vs|
      invariant p.Appending() && p.bytes == start + done
      invariant whole == Prepend(done, EncodeFields(c, fs[i..], vs[i..]))
      invariant done == [] || |start| + |done| <= p.maxSize
    {
      ghost var b := Encode(c, fs[i].ty, vs[i], fs[i].maxSliceLen);
      NextField(c, fs, vs, i, done, whole);
      var fieldOk := Marshal(c, fs[i].ty, vs[i], fs[i].maxSliceLen, p);
      if !fieldOk {
        NotAllFit(done, b, EncodeFields(c, fs[i + 1..], vs[i + 1..]), whole, |start|, p.maxSize);
        return false;
      }
      Regroup(start, done, b.value);
      done := done + b.value;
    }
    assert vs[|vs|..] == [];
    return true;
  }

  lemma Regroup(a: bytes, b: bytes, c: bytes)
    ensures a + b + c == a + (b + c)
  {
  }

  // ---------- unmarshal ----------

  // What reading at `before` gives: nothing and an error, or the value with the packer past it.
  ghost predicate ReadAs<T>(r: Option<T>, parsed: Parsed<T>, p: Packer)
    reads p
  {
    match parsed
    case Malformed => r == None
    case Parsed(v, rest) => r == Some(v) && p.InBounds() && p.Unread() == rest
  }

  method Unmarshal(c: Config, ty: Ty, maxSliceLen: nat, p: Packer) returns (r: Option<Value>)
    requires p.InBounds()
    modifies p
    ensures p.bytes == old(p.bytes) && ReadAs(r, Decode(c, ty, old(p.Unread()), maxSliceLen), p)
    decreases |p.bytes| - p.offset, ty, 0
  {
    match ty {
      case TUint(w) =>
        if w !in WIDTHS {
          return None;
        }
        var n := p.UnpackUint(w);
        return if p.errored then None else Some(VInt(n));
      case TInt(w) =>
        if w !in WIDTHS {
          return None;
        }
        var n := p.UnpackUint(w);
        return if p.errored then None else Some(VInt(Signed(n, w)));
      case TBool =>
        var n := p.UnpackUint(1);
        return if p.errored || n > 1 then None else Some(VBool(n == 1));
      case TString =>
        var n := p.UnpackUint(2);
        if p.errored {
          return None;
        }
        var s := p.UnpackFixedBytes(n);
        return if p.errored then None else Some(VString(s));
      case TSlice(e) =>
        var n := p.UnpackUint(4);
        if p.errored || n > maxSliceLen || n > MAX_INT32 {
          return None;
        }
        var vs := UnmarshalElements(c, e, n, p);
        return if vs.None? then None else Some(VSeq(vs.value));
      case TArray(n, e) =>
        var vs := UnmarshalElements(c, e, n, p);
        return if vs.None? then None else Some(VSeq(vs.value));
      case TInterface(name) =>
        var id := p.UnpackUint(4);
        if p.errored || id !in c.typeIDToType || (c.typeIDToType[id], name) !in c.implements {
          return None;
        }
        var v := Unmarshal(c, c.typeIDToType[id], c.maxSliceLen, p);
        return if v.None? then None else Some(VInterface(c.typeIDToType[id], v.value));
      case TStruct(_, fs) =>
        if !AllExported(fs) {
          return None;
        }
        var vs := UnmarshalFields(c, fs, p);
        return if vs.None? then None else Some(VStruct(vs.value));
      case TPtr(e) =>
        var v := Unmarshal(c, e, c.maxSliceLen, p);
        return if v.None? then None else Some(VPtr(v.value));
      case TOther(_) => return None;
    }
  }

  // Slices and arrays of bytes are read in one piece, others element by element.
  method UnmarshalElements(c: Config, ty: Ty, n: nat, p: Packer) returns (r: Option<seq<Value>>)
    requires p.InBounds()
    modifies p
    ensures p.bytes == old(p.bytes) && ReadAs(r, DecodeAll(c, ty, n, old(p.Unread())), p)
    decreases |p.bytes| - p.offset, ty, n + 2
  {
    if ty == TUint(1) {
      RawBytesDecode(c, n, p.Unread());
      var b := p.UnpackFixedBytes(n);
      return if p.errored then None else Some(Ints(b));
    }
    r := UnmarshalEach(c, ty, n, p);
  }

  method UnmarshalEach(c: Config, ty: Ty, n: nat, p: Packer) returns (r: Option<seq<Value>>)
    requires p.InBounds()
    modifies p
    ensures p.bytes == old(p.bytes) && ReadAs(r, DecodeAll(c, ty, n, old(p.Unread())), p)
    decreases |p.bytes| - p.offset, ty, n + 1
  {
    ghost var whole := DecodeAll(c, ty, n, p.Unread());
    var vs: seq<Value> := [];
    JoinNone(whole);
    for i := 0 to n
      invariant p.bytes == old(p.bytes) && p.InBounds() && old(p.offset) <= p.offset
      invariant whole == Join(vs, DecodeAll(c, ty, n - i, p.Unread()))
    {
      var v := UnmarshalNext(c, ty, p, n - i, vs, whole);
      if v.None? {
        return None;
      }
      vs := vs + [v.value];
    }
    assert vs + [] == vs;
    return Some(vs);
  }

  // The next of n more elements.
  method UnmarshalNext(c: Config, ty: Ty, p: Packer, ghost n: nat, ghost vs: seq<Value>,
                       ghost whole: Parsed<seq<Value>>) returns (v: Option<Value>)
    requires p.InBounds() && n > 0 && whole == Join(vs, DecodeAll(c, ty, n, p.Unread()))
    modifies p
    ensures p.bytes == old(p.bytes)
    ensures v.None? ==> whole.Malformed?
    ensures v.Some? ==> p.InBounds() && old(p.offset) <= p.offset
    ensures v.Some? ==> whole == Join(vs + [v.value], DecodeAll(c, ty, n - 1, p.Unread()))
    decreases |p.bytes| - p.offset, ty, 1
  {
    OneByOne(c, ty, n, p.Unread(), vs, whole);
    v := Unmarshal(c, ty, c.maxSliceLen, p);
  }

  // Decoding the rest is decoding one element and then the others.
  lemma OneByOne(c: Config, ty: Ty, n: nat, b: bytes, vs: seq<Value>, whole: Parsed<seq<Value>>)
    requires n > 0 && whole == Join(vs, DecodeAll(c, ty, n, b))
    ensures var first := Decode(c, ty, b, c.maxSliceLen);
            whole == if first.Malformed? then Malformed
                     else Join(vs + [first.value], DecodeAll(c, ty, n - 1, first.rest))
  {
    var first := Decode(c, ty, b, c.maxSliceLen);
    if first.Parsed? {
      JoinOne(vs, first.value, DecodeAll(c, ty, n - 1, first.rest));
    }
  }

  method UnmarshalFields(c: Config, fs: seq<Field>, p: Packer) returns (r: Option<seq<Value>>)
    requires p.InBounds()
    modifies p
    ensures p.bytes == old(p.bytes) && ReadAs(r, DecodeFields(c, fs, old(p.Unread())), p)
    decreases |p.bytes| - p.offset, fs, 0
  {
    ghost var start := p.Unread();
    var vs: seq<Value> := [];
    JoinNone(DecodeFields(c, fs, start));
    assert fs[0..] == fs;
    for i := 0 to |fs|
      invariant p.bytes == old(p.bytes) && p.InBounds() && old(p.offset) <= p.offset
      invariant DecodeFields(c, fs, start) == Join(vs, DecodeFields(c, fs[i..], p.Unread()))
    {
      assert fs[i..][0] == fs[i] && fs[i..][1..] == fs[i + 1..];
      var v := UnmarshalField(c, fs[i], p);
      if v.None? {
        return None;
      }
      JoinOne(vs, v.value, DecodeFields(c, fs[i + 1..], p.Unread()));
      vs := vs + [v.value];
    }
    assert fs[|fs|..] == [];
    assert vs + [] == vs;
    return Some(vs);
  }

  method UnmarshalField(c: Config, f: Field, p: Packer) returns (r: Option<Value>)
    requires p.InBounds()
    modifies p
    ensures p.bytes == old(p.bytes) && ReadAs(r, DecodeField(c, f, old(p.Unread())), p)
    decreases |p.bytes| - p.offset, f, 0
  {
    r := Unmarshal(c, f.ty, f.maxSliceLen, p);
  }

  function Join(vs: seq<Value>, more: Parsed<seq<Value>>): Parsed<seq<Value>> {
    match more
    case Malformed => Malformed
    case Parsed(ws, rest) => Parsed(vs + ws, rest)
  }

  lemma JoinNone(more: Parsed<seq<Value>>)
    ensures Join([], more) == more
  {
    if more.Parsed? {
      assert [] + more.value == more.value;
    }
  }

  lemma JoinOne(vs: seq<Value>, v: Value, more: Parsed<seq<Value>>)
    ensures Join(vs, Join([v], more)) == Join(vs + [v], more)
  {
    if more.Parsed? {
      assert vs + ([v] + more.value) == vs + [v] + more.value;
    }
  }
}
