/**
 codec/manager.go: codecs under a version prefix, with a bound on the size of a message.
 */
module CodecManager {
  import opened Wrappers
  import opened Bytes
  import opened Codec
  import opened CodecRoundTrip
  import opened CodecCanonical
  import opened LinearCodec
  import opened Packing
  import ReflectCodec

  type uint16 = n: int | 0 <= n <= MAX_UINT16

  datatype Error =
    | UnknownVersion
    | DuplicatedVersion
    | CantPackVersion
    | CantUnpackVersion
    | TooLarge
    | BadValue
    | ExtraSpace

  // The message of a value: the version, then the value.
  function Message(configs: map<uint16, Config>, maxSize: int, version: uint16, ty: Ty,
                   v: Value): Result<bytes, Error> {
    if version !in configs then Err(UnknownVersion)
    else if 2 > maxSize then Err(CantPackVersion)
    else
      match Encode(configs[version], ty, v, configs[version].maxSliceLen)
      case None => Err(BadValue)
      case Some(b) => if 2 + |b| > maxSize then Err(BadValue) else Ok(ToBigEndian(version, 2) + b)
  }

  function Contents(configs: map<uint16, Config>, maxSize: int, b: bytes, ty: Ty): Result<(uint16, Value), Error> {
    if |b| > maxSize then Err(TooLarge)
    else if |b| < 2 then Err(CantUnpackVersion)
    else
      var version := FromBigEndian(b[..2]);
      if version !in configs then Err(UnknownVersion)
      else
        match Decode(configs[version], ty, b[2..], configs[version].maxSliceLen)
        case Malformed => Err(BadValue)
        case Parsed(v, rest) => if rest != [] then Err(ExtraSpace) else Ok((version, v))
  }

  class Manager {
    var maxSize: int
    var codecs: map<uint16, TypeCodec>

    constructor (maxSize: int)
      ensures this.maxSize == maxSize && codecs == map[]
    {
      this.maxSize, codecs := maxSize, map[];
    }

    function Configs(): map<uint16, Config>
      reads this, codecs.Values
    {
      map version | version in codecs :: codecs[version].Settings()
    }

    method RegisterCodec(version: uint16, codec: TypeCodec) returns (r: Result<(), Error>)
      modifies this
      ensures r == if version in old(codecs) then Err(DuplicatedVersion) else Ok(())
      ensures codecs == (if version in old(codecs) then old(codecs) else old(codecs)[version := codec]) &&
              maxSize == old(maxSize)
    {
      if version in codecs {
        return Err(DuplicatedVersion);
      }
      codecs := codecs[version := codec];
      return Ok(());
    }

    method SetMaxSize(size: int)
      modifies this
      ensures maxSize == size && codecs == old(codecs)
    {
      maxSize := size;
    }

    method Marshal(version: uint16, ty: Ty, v: Value) returns (r: Result<bytes, Error>)
      requires version in codecs ==> HasType(codecs[version].Settings(), ty, v)
      ensures r == Message(Configs(), maxSize, version, ty, v)
    {
      if version !in codecs {
        return Err(UnknownVersion);
      }
      var c := codecs[version].Settings();
      var p := new Packer(maxSize);
      p.PackUint(version, 2);
      if p.errored {
        return Err(CantPackVersion);
      }
      assert p.bytes == ToBigEndian(version, 2);
      var ok := ReflectCodec.Marshal(c, ty, v, c.maxSliceLen, p);
      return if ok then Ok(p.bytes) else Err(BadValue);
    }

    method Unmarshal(b: bytes, ty: Ty) returns (r: Result<(uint16, Value), Error>)
      ensures r == Contents(Configs(), maxSize, b, ty)
    {
      if |b| > maxSize {
        return Err(TooLarge);
      }
      var p := new Packer.Reading(b);
      var version := p.UnpackUint(2);
      if p.errored {
        return Err(CantUnpackVersion);
      }
      FromBigEndianBound(b[..2]);
      PowersOf256();
      if version !in codecs {
        return Err(UnknownVersion);
      }
      var c := codecs[version].Settings();
      var q := new Packer.Reading(p.Unread());
      var v := ReflectCodec.Unmarshal(c, ty, c.maxSliceLen, q);
      if v.None? {
        return Err(BadValue);
      }
      return if q.offset != |q.bytes| then Err(ExtraSpace) else Ok((version, v.value));
    }
  }

  // A message unmarshals to the version and value it was made from, with every byte consumed, if
  // and only if the value is faithful under that version's codec.
  lemma MessageRoundTrip(configs: map<uint16, Config>, maxSize: int, version: uint16, ty: Ty, v: Value)
    requires version in configs && HasType(configs[version], ty, v) && Message(configs, maxSize, version, ty, v).Ok?
    ensures var b := Message(configs, maxSize, version, ty, v).value;
            |b| <= maxSize && (Contents(configs, maxSize, b, ty) == Ok((version, v)) <==>
                               Faithful(configs[version], ty, v))
  {
    var c := configs[version];
    var body := Encode(c, ty, v, c.maxSliceLen).value;
    var b := ToBigEndian(version, 2) + body;
    PowersOf256();
    BigEndianRoundTrip(version, 2);
    assert b[..2] == ToBigEndian(version, 2) && b[2..] == body;
    RoundTrip(c, ty, v, c.maxSliceLen, []);
    assert body + [] == body;
  }

  // Bytes that unmarshal are the message of what they unmarshal to, if its arrays are within the
  // bound; otherwise marshal refuses it.
  lemma MessageCanonical(configs: map<uint16, Config>, maxSize: int, b: bytes, ty: Ty)
    requires Contents(configs, maxSize, b, ty).Ok?
    requires forall version | version in configs :: IdsOk(configs[version])
    ensures var (version, v) := Contents(configs, maxSize, b, ty).value;
            && HasType(configs[version], ty, v) && Faithful(configs[version], ty, v)
            && Message(configs, maxSize, version, ty, v) == if ArraysFit(configs[version], ty, v) then Ok(b)
                else Err(BadValue)
  {
    var (version, v) := Contents(configs, maxSize, b, ty).value;
    var c := configs[version];
    Canonical(c, ty, b[2..], c.maxSliceLen, Decode(c, ty, b[2..], c.maxSliceLen));
    BigEndianCanonical(b[..2]);
    assert b == b[..2] + b[2..];
    assert b[2..][..|b[2..]|] == b[2..];
  }

  // The settings of a codec reached by any run of registrations satisfy what canonicity needs, and
  // every registered type resolves when the run never reused an ID.
  lemma RegisteredCodecs(ops: seq<Op>, implements: set<(Ty, string)>, maxSliceLen: nat)
    ensures var r := ApplyAll(EMPTY, ops);
            var c := Config(r.typeToTypeID, r.typeIDToType, implements, maxSliceLen);
            IdsOk(c) && (AllFresh(EMPTY, ops) <==> forall ty :: Resolves(c, ty))
  {
    var r := ApplyAll(EMPTY, ops);
    var c := Config(r.typeToTypeID, r.typeIDToType, implements, maxSliceLen);
    IdsAlwaysLeadToTypes(ops);
    InverseExactlyWhenFresh(ops);
    if !AllFresh(EMPTY, ops) {
      var ty :| Lost(r, ty);
      assert !Resolves(c, ty);
    } else {
      forall ty
        ensures Resolves(c, ty)
      {
        assert ty in r.typeToTypeID ==> !Lost(r, ty);
      }
    }
  }
}
