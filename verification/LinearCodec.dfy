/**
 The type registry of codec/linearcodec: which runs of RegisterType and SkipRegistrations keep type
 IDs and types in bijection.
 */
module LinearCodec {
  import opened Wrappers
  import opened Bytes
  import opened Codec
  import opened CodecRoundTrip
  import opened CodecCanonical

  datatype Registry = Registry(nextTypeID: uint32, typeIDToType: map<uint32, Ty>, typeToTypeID: map<Ty, uint32>)

  datatype Op = Register(ty: Ty) | Skip(num: int)

  const EMPTY := Registry(0, map[], map[])

  // uint32 addition; a negative num wraps as well.
  function Advance(id: uint32, num: int): uint32 {
    (id + num) % 0x1_0000_0000
  }

  function Apply(r: Registry, op: Op): Registry {
    match op
    case Skip(num) => r.(nextTypeID := Advance(r.nextTypeID, num))
    case Register(ty) =>
      if ty in r.typeToTypeID then r
      else Registry(Advance(r.nextTypeID, 1), r.typeIDToType[r.nextTypeID := ty], r.typeToTypeID[ty := r.nextTypeID])
  }

  function ApplyAll(r: Registry, ops: seq<Op>): Registry {
    if ops == [] then r else Apply(ApplyAll(r, ops[..|ops| - 1]), ops[|ops| - 1])
  }

  // The codec of codec/linearcodec: a registry in mutable fields.
  class TypeCodec {
    var nextTypeID: uint32
    var typeIDToType: map<uint32, Ty>
    var typeToTypeID: map<Ty, uint32>
    const implements: set<(Ty, string)>
    const maxSliceLen: uint32

    constructor (implements: set<(Ty, string)>, maxSliceLen: uint32)
      ensures Contents() == EMPTY && this.implements == implements && this.maxSliceLen == maxSliceLen
    {
      this.implements, this.maxSliceLen := implements, maxSliceLen;
      nextTypeID, typeIDToType, typeToTypeID := 0, map[], map[];
    }

    function Contents(): Registry
      reads this
    {
      Registry(nextTypeID, typeIDToType, typeToTypeID)
    }

    function Settings(): Config
      reads this
    {
      Config(typeToTypeID, typeIDToType, implements, maxSliceLen)
    }

    method SkipRegistrations(num: int)
      modifies this
      ensures Contents() == Apply(old(Contents()), Skip(num))
    {
      nextTypeID := Advance(nextTypeID, num % 0x1_0000_0000);
    }

    method RegisterType(ty: Ty) returns (ok: bool)
      modifies this
      ensures ok <==> ty !in old(typeToTypeID)
      ensures Contents() == Apply(old(Contents()), Register(ty))
    {
      if ty in typeToTypeID {
        return false;
      }
      typeIDToType := typeIDToType[nextTypeID := ty];
      typeToTypeID := typeToTypeID[ty := nextTypeID];
      nextTypeID := Advance(nextTypeID, 1);
      return true;
    }
  }

  ghost predicate IdsLeadToTypes(r: Registry) {
    forall id | id in r.typeIDToType :: r.typeIDToType[id] in r.typeToTypeID && r.typeToTypeID[r.typeIDToType[id]] == id
  }

  // The type still has an ID, but the ID leads elsewhere.
  predicate Lost(r: Registry, ty: Ty) {
    ty in r.typeToTypeID && !(r.typeToTypeID[ty] in r.typeIDToType && r.typeIDToType[r.typeToTypeID[ty]] == ty)
  }

  ghost predicate TypesLeadToIds(r: Registry) {
    forall ty | ty in r.typeToTypeID :: !Lost(r, ty)
  }

  // The ID the operation would hand out is not in use.
  predicate TakesFreshId(r: Registry, op: Op) {
    op.Register? && op.ty !in r.typeToTypeID ==> r.nextTypeID !in r.typeIDToType
  }

  predicate AllFresh(r: Registry, ops: seq<Op>) {
    ops == [] || (AllFresh(r, ops[..|ops| - 1]) && TakesFreshId(ApplyAll(r, ops[..|ops| - 1]), ops[|ops| - 1]))
  }

  // Whatever the IDs, a registered ID is the ID of the type it leads to.
  lemma {:induction false} IdsAlwaysLeadToTypes(ops: seq<Op>)
    ensures IdsLeadToTypes(ApplyAll(EMPTY, ops))
  {
    if ops != [] {
      IdsAlwaysLeadToTypes(ops[..|ops| - 1]);
    }
  }

  lemma LostStaysLost(r: Registry, op: Op, ty: Ty)
    requires Lost(r, ty)
    ensures Lost(Apply(r, op), ty)
  {
  }

  lemma ReuseLoses(r: Registry, op: Op)
    requires IdsLeadToTypes(r) && !TakesFreshId(r, op)
    ensures Lost(Apply(r, op), r.typeIDToType[r.nextTypeID])
  {
    var old_ := r.typeIDToType[r.nextTypeID];
    assert r.typeToTypeID[old_] == r.nextTypeID;
  }

  // After any run the two maps are inverse to each other if and only if no registration took an ID
  // already in use, which happens only when the 32-bit counter wraps or is moved back.
  lemma {:induction false} InverseExactlyWhenFresh(ops: seq<Op>)
    ensures TypesLeadToIds(ApplyAll(EMPTY, ops)) <==> AllFresh(EMPTY, ops)
    ensures !AllFresh(EMPTY, ops) ==> exists ty :: Lost(ApplyAll(EMPTY, ops), ty)
  {
    if ops != [] {
      var before := ApplyAll(EMPTY, ops[..|ops| - 1]);
      var op := ops[|ops| - 1];
      InverseExactlyWhenFresh(ops[..|ops| - 1]);
      IdsAlwaysLeadToTypes(ops[..|ops| - 1]);
      if !AllFresh(EMPTY, ops[..|ops| - 1]) {
        var ty :| Lost(before, ty);
        LostStaysLost(before, op, ty);
      } else if !TakesFreshId(before, op) {
        ReuseLoses(before, op);
      }
    }
  }

  // The counter as it would be without 32-bit wrap-around.
  function Counter(ops: seq<Op>): int {
    if ops == [] then 0
    else
      var init, op := ops[..|ops| - 1], ops[|ops| - 1];
      Counter(init) + if op.Skip? then op.num else if op.ty in ApplyAll(EMPTY, init).typeToTypeID then 0 else 1
  }

  // Runs that only skip forward and hand out at most 2^32 IDs are fresh throughout.
  lemma {:induction false} ForwardRunsAreFresh(ops: seq<Op>)
    requires (forall op | op in ops :: op.Skip? ==> op.num >= 0) && Counter(ops) <= 0x1_0000_0000
    ensures AllFresh(EMPTY, ops) && Counter(ops) >= 0
    ensures var r := ApplyAll(EMPTY, ops);
            r.nextTypeID == Counter(ops) % 0x1_0000_0000 && forall id | id in r.typeIDToType :: id < Counter(ops)
  {
    if ops != [] {
      var init, op := ops[..|ops| - 1], ops[|ops| - 1];
      assert op in ops && forall o | o in init :: o in ops;
      var step := Counter(ops) - Counter(init);
      assert step >= 0;
      ForwardRunsAreFresh(init);
      AdvanceForward(Counter(init), step);
      var r := ApplyAll(EMPTY, init);
      if step > 0 {
        assert r.nextTypeID == Counter(init);
      }
    }
  }

  // Without wrap-around the counter is the sum.
  lemma AdvanceForward(n: nat, step: nat)
    requires n + step <= 0x1_0000_0000
    ensures Advance(n % 0x1_0000_0000, step) == (n + step) % 0x1_0000_0000
    ensures step > 0 ==> n % 0x1_0000_0000 == n
  {
  }

  const MOVED_BACK: seq<Op> := [Register(TBool), Skip(-1), Register(TString)]

  // Moving the counter back hands out an ID twice: the first type keeps its ID, but the ID leads to the
  // second one.
  lemma MovedBackLoses()
    ensures Lost(ApplyAll(EMPTY, MOVED_BACK), TBool) && !AllFresh(EMPTY, MOVED_BACK)
  {
    var ops := MOVED_BACK;
    assert ops[..2] == [Register(TBool), Skip(-1)] && ops[..2][..1] == [Register(TBool)] && ops[..2][..1][..0] == [];
    var r1 := Apply(EMPTY, ops[0]);
    assert ApplyAll(EMPTY, [Register(TBool)]) == r1 && r1.nextTypeID == 1;
    var r2 := Apply(r1, ops[1]);
    assert ApplyAll(EMPTY, ops[..2]) == r2 && r2.nextTypeID == 0;
    assert 0 in r2.typeIDToType && TString !in r2.typeToTypeID;
    IdsAlwaysLeadToTypes(ops[..2]);
    ReuseLoses(r2, ops[2]);
  }
}
