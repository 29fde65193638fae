/**
 chains/atomic/state.go: one direction of shared memory between two chains, as a value. Elements
 under keys, tombstones for keys removed before they were put, and per trait the linked list of the
 keys that have it (module LinkedList).
 */
module Mailbox {
  import opened Wrappers
  import opened Bytes
  import opened Entries
  import opened LinkedList

  type Trait = bytes

  datatype Element = Element(key: Key, value: bytes, traits: seq<Trait>)

  // present == false marks a key removed before it existed.
  datatype DbElement = DbElement(present: bool, value: bytes, traits: seq<Trait>)

  datatype Error = Duplicated | TooLarge | NotFound | Database

  // Values by key, and the non-empty trait lists.
  datatype Mailbox = Mailbox(values: map<Key, DbElement>, index: map<Trait, List>)

  const EMPTY := Mailbox(map[], map[])
  const TOMBSTONE := DbElement(false, [], [])

  // The codec manager of chains/atomic bounds a marshalled dbElement: version, Present, Value and
  // Traits with their lengths.
  const MAX_ELEMENT_SIZE := 256 * 1024

  function TraitsSize(traits: seq<Trait>): nat {
    if traits == [] then 0 else 4 + |traits[0]| + TraitsSize(traits[1..])
  }

  function ElementSize(e: DbElement): nat {
    2 + 1 + 4 + |e.value| + 4 + TraitsSize(e.traits)
  }

  predicate Marshals(e: DbElement) {
    ElementSize(e) <= MAX_ELEMENT_SIZE
  }

  function TraitList(index: map<Trait, List>, t: Trait): List {
    if t in index then index[t] else []
  }

  function SetList(index: map<Trait, List>, t: Trait, l: List): map<Trait, List> {
    if l == [] then index - {t} else index[t := l]
  }

  // Lists key under each of the traits, in order.
  function IndexAll(index: map<Trait, List>, traits: seq<Trait>, key: Key): map<Trait, List> {
    if traits == [] then index
    else
      var before, t := IndexAll(index, traits[..|traits| - 1], key), traits[|traits| - 1];
      SetList(before, t, ListPut(TraitList(before, t), key, []))
  }

  function UnindexAll(index: map<Trait, List>, traits: seq<Trait>, key: Key): map<Trait, List> {
    if traits == [] then index
    else
      var before, t := UnindexAll(index, traits[..|traits| - 1], key), traits[|traits| - 1];
      SetList(before, t, ListDelete(TraitList(before, t), key))
  }

  function Stored(e: Element): DbElement {
    DbElement(true, e.value, e.traits)
  }

  function SetValue(m: Mailbox, e: Element): Result<Mailbox, Error> {
    if e.key in m.values then
      if m.values[e.key].present then Err(Duplicated)
      else Ok(m.(values := m.values - {e.key}))
    else if !Marshals(Stored(e)) then Err(TooLarge)
    else Ok(Mailbox(m.values[e.key := Stored(e)], IndexAll(m.index, e.traits, e.key)))
  }

  function RemoveValue(m: Mailbox, key: Key): Result<Mailbox, Error> {
    if key !in m.values then Ok(m.(values := m.values[key := TOMBSTONE]))
    else if !m.values[key].present then Err(Duplicated)
    else Ok(Mailbox(m.values - {key}, UnindexAll(m.index, m.values[key].traits, key)))
  }

  function Value(m: Mailbox, key: Key): Result<Element, Error> {
    if key in m.values && m.values[key].present then Ok(Element(key, m.values[key].value, m.values[key].traits))
    else Err(NotFound)
  }

  // ---------- The trait index ----------

  ghost predicate ListsOk(index: map<Trait, List>) {
    forall t | t in index :: Distinct(index[t]) && index[t] != []
  }

  // A key is listed under a trait exactly when it is present and has the trait; tombstones are bare.
  ghost predicate IndexOk(m: Mailbox) {
    && ListsOk(m.index)
    && (forall t, k {:trigger Has(TraitList(m.index, t), k)} :: Has(TraitList(m.index, t), k) <==>
        k in m.values && m.values[k].present && t in m.values[k].traits)
    && (forall k | k in m.values && !m.values[k].present :: m.values[k] == TOMBSTONE)
  }

  lemma ListsKept(index: map<Trait, List>, t: Trait, l: List)
    requires ListsOk(index) && Distinct(l)
    ensures ListsOk(SetList(index, t, l))
    ensures forall u :: TraitList(SetList(index, t, l), u) == if u == t then l else TraitList(index, u)
  {
  }

  lemma ListMembers(index: map<Trait, List>, t: Trait, l: List, u: Trait, k: Key)
    requires ListsOk(index) && Distinct(l)
    ensures Has(TraitList(SetList(index, t, l), u), k) <==> if u == t then Has(l, k) else Has(TraitList(index, u), k)
  {
    ListsKept(index, t, l);
  }

  lemma {:induction false} IndexAllOk(index: map<Trait, List>, traits: seq<Trait>, key: Key)
    requires ListsOk(index)
    ensures ListsOk(IndexAll(index, traits, key))
  {
    if traits != [] {
      var init, last := traits[..|traits| - 1], traits[|traits| - 1];
      IndexAllOk(index, init, key);
      var l := TraitList(IndexAll(index, init, key), last);
      var i := ListPutAt(l, key, []);
      ListsKept(IndexAll(index, init, key), last, ListPut(l, key, []));
    }
  }

  lemma {:induction false} IndexAllLists(index: map<Trait, List>, traits: seq<Trait>, key: Key, t: Trait, k: Key)
    requires ListsOk(index)
    ensures ListsOk(IndexAll(index, traits, key))
    ensures Has(TraitList(IndexAll(index, traits, key), t), k) <==>
              Has(TraitList(index, t), k) || (k == key && t in traits)
  {
    IndexAllOk(index, traits, key);
    if traits != [] {
      var init, last := traits[..|traits| - 1], traits[|traits| - 1];
      IndexAllLists(index, init, key, t, k);
      var before := IndexAll(index, init, key);
      var l := TraitList(before, last);
      var i := ListPutAt(l, key, []);
      ListPutMeaning(l, key, [], k);
      ListMembers(before, last, ListPut(l, key, []), t, k);
      assert t in traits <==> t in init || t == last;
    }
  }

  lemma {:induction false} UnindexAllOk(index: map<Trait, List>, traits: seq<Trait>, key: Key)
    requires ListsOk(index)
    ensures ListsOk(UnindexAll(index, traits, key))
  {
    if traits != [] {
      var init, last := traits[..|traits| - 1], traits[|traits| - 1];
      UnindexAllOk(index, init, key);
      var l := TraitList(UnindexAll(index, init, key), last);
      WithoutDistinct(l, key);
      ListsKept(UnindexAll(index, init, key), last, ListDelete(l, key));
    }
  }

  lemma {:induction false} UnindexAllLists(index: map<Trait, List>, traits: seq<Trait>, key: Key, t: Trait, k: Key)
    requires ListsOk(index)
    ensures ListsOk(UnindexAll(index, traits, key))
    ensures Has(TraitList(UnindexAll(index, traits, key), t), k) <==>
              Has(TraitList(index, t), k) && !(k == key && t in traits)
  {
    UnindexAllOk(index, traits, key);
    if traits != [] {
      var init, last := traits[..|traits| - 1], traits[|traits| - 1];
      UnindexAllLists(index, init, key, t, k);
      var before := UnindexAll(index, init, key);
      var l := TraitList(before, last);
      WithoutDistinct(l, key);
      WithoutKeepsOthers(l, key, k);
      ListMembers(before, last, ListDelete(l, key), t, k);
      assert t in traits <==> t in init || t == last;
    }
  }

  lemma SetKeepsIndex(m: Mailbox, e: Element)
    requires IndexOk(m) && SetValue(m, e).Ok?
    ensures IndexOk(SetValue(m, e).value)
  {
    var m' := SetValue(m, e).value;
    if e.key !in m.values {
      IndexAllLists(m.index, e.traits, e.key, [], []);
      forall t, k
        ensures Has(TraitList(m'.index, t), k) <==> k in m'.values && m'.values[k].present && t in m'.values[k].traits
      {
        IndexAllLists(m.index, e.traits, e.key, t, k);
      }
    }
  }

  lemma RemoveKeepsIndex(m: Mailbox, key: Key)
    requires IndexOk(m) && RemoveValue(m, key).Ok?
    ensures IndexOk(RemoveValue(m, key).value)
  {
    var m' := RemoveValue(m, key).value;
    if key in m.values {
      var traits := m.values[key].traits;
      UnindexAllLists(m.index, traits, key, [], []);
      forall t, k
        ensures Has(TraitList(m'.index, t), k) <==> k in m'.values && m'.values[k].present && t in m'.values[k].traits
      {
        UnindexAllLists(m.index, traits, key, t, k);
      }
    }
  }

  // ---------- Runs of puts and removes ----------

  datatype Op = Put(element: Element) | Remove(key: Key)

  function OpKey(op: Op): Key {
    if op.Put? then op.element.key else op.key
  }

  function Apply(m: Mailbox, op: Op): Result<Mailbox, Error> {
    if op.Put? then SetValue(m, op.element) else RemoveValue(m, op.key)
  }

  // All operations must succeed.
  function Run(m: Mailbox, ops: seq<Op>): Result<Mailbox, Error> {
    if ops == [] then Ok(m)
    else
      match Run(m, ops[..|ops| - 1])
      case Err(e) => Err(e)
      case Ok(before) => Apply(before, ops[|ops| - 1])
  }

  lemma {:induction false} RunKeepsIndex(ops: seq<Op>)
    requires Run(EMPTY, ops).Ok?
    ensures IndexOk(Run(EMPTY, ops).value)
  {
    if ops != [] {
      RunKeepsIndex(ops[..|ops| - 1]);
      var before := Run(EMPTY, ops[..|ops| - 1]).value;
      if ops[|ops| - 1].Put? {
        SetKeepsIndex(before, ops[|ops| - 1].element);
      } else {
        RemoveKeepsIndex(before, ops[|ops| - 1].key);
      }
    }
  }

  // Puts minus removes of a key.
  function Net(ops: seq<Op>, k: Key): int {
    if ops == [] then 0
    else
      var op := ops[|ops| - 1];
      Net(ops[..|ops| - 1], k) + if OpKey(op) != k then 0 else if op.Put? then 1 else -1
  }

  function LastPut(ops: seq<Op>, k: Key): Option<Element> {
    if ops == [] then None
    else if ops[|ops| - 1].Put? && OpKey(ops[|ops| - 1]) == k then Some(ops[|ops| - 1].element)
    else LastPut(ops[..|ops| - 1], k)
  }

  // Which runs succeed: no key is ever put twice or removed twice without the other in between, and
  // an element put on an absent key can be marshalled.
  predicate Allowed(ops: seq<Op>) {
    ops == [] ||
    (&& Allowed(ops[..|ops| - 1])
     && var op := ops[|ops| - 1];
        var net := Net(ops[..|ops| - 1], OpKey(op));
        if op.Put? then net <= 0 && (net == 0 ==> Marshals(Stored(op.element))) else net >= 0)
  }

  // What a key's entry is after a run.
  function Expected(ops: seq<Op>, k: Key): Option<DbElement> {
    if Net(ops, k) == 0 then None
    else if Net(ops, k) < 0 then Some(TOMBSTONE)
    else match LastPut(ops, k) case None => None case Some(e) => Some(Stored(e))
  }

  function Lookup(values: map<Key, DbElement>, k: Key): Option<DbElement> {
    if k in values then Some(values[k]) else None
  }

  // A run succeeds exactly when it is allowed, and then every key is present with its last put,
  // absent or tombstoned as its puts minus removes is +1, 0 or -1.
  lemma {:induction false} RunOutcome(ops: seq<Op>, k: Key)
    ensures Run(EMPTY, ops).Ok? <==> Allowed(ops)
    ensures Allowed(ops) ==> -1 <= Net(ops, k) <= 1 && Lookup(Run(EMPTY, ops).value.values, k) == Expected(ops, k)
    ensures Net(ops, k) > 0 ==> LastPut(ops, k).Some?
  {
    if ops != [] {
      var init, op := ops[..|ops| - 1], ops[|ops| - 1];
      RunOutcome(init, k);
      RunOutcome(init, OpKey(op));
    }
  }

  // ---------- Order independence ----------

  predicate SameSlot(a: Op, b: Op) {
    a.Put? == b.Put? && OpKey(a) == OpKey(b)
  }

  // No key is put twice and no key is removed twice.
  ghost predicate AtMostOnce(ops: seq<Op>) {
    forall i, j | 0 <= i < j < |ops| :: !SameSlot(ops[i], ops[j])
  }

  predicate PutsMarshal(ops: seq<Op>) {
    forall op | op in ops && op.Put? :: Marshals(Stored(op.element))
  }

  predicate Puts(ops: seq<Op>, k: Key) {
    exists op | op in ops :: op.Put? && OpKey(op) == k
  }

  predicate Removes(ops: seq<Op>, k: Key) {
    exists op | op in ops :: op.Remove? && OpKey(op) == k
  }

  function Count(b: bool): int {
    if b then 1 else 0
  }

  lemma AppendOp(init: seq<Op>, op: Op, k: Key)
    ensures Puts(init + [op], k) <==> Puts(init, k) || (op.Put? && OpKey(op) == k)
    ensures Removes(init + [op], k) <==> Removes(init, k) || (op.Remove? && OpKey(op) == k)
  {
    var ops := init + [op];
    assert op in ops && forall o | o in init :: o in ops;
  }

  lemma {:induction false} OnceOutcome(ops: seq<Op>, k: Key)
    requires AtMostOnce(ops) && PutsMarshal(ops)
    ensures Allowed(ops)
    ensures Net(ops, k) == Count(Puts(ops, k)) - Count(Removes(ops, k))
    ensures forall op | op in ops && op.Put? && OpKey(op) == k :: LastPut(ops, k) == Some(op.element)
  {
    if ops != [] {
      var init, last := ops[..|ops| - 1], ops[|ops| - 1];
      assert ops == init + [last];
      assert forall op | op in init :: op in ops && !SameSlot(op, last);
      OnceOutcome(init, k);
      OnceOutcome(init, OpKey(last));
      AppendOp(init, last, k);
    }
  }

  // Two orders of the same operations, each key put at most once and removed at most once, both
  // succeed and end with the same values, tombstones and trait sets.
  lemma OrderIndependence(a: seq<Op>, b: seq<Op>)
    requires AtMostOnce(a) && AtMostOnce(b) && PutsMarshal(a) && (forall op :: op in a <==> op in b)
    ensures Run(EMPTY, a).Ok? && Run(EMPTY, b).Ok?
    ensures Run(EMPTY, a).value.values == Run(EMPTY, b).value.values
    ensures forall t, k :: Has(TraitList(Run(EMPTY, a).value.index, t), k) <==>
              Has(TraitList(Run(EMPTY, b).value.index, t), k)
  {
    OnceOutcome(a, []);
    OnceOutcome(b, []);
    RunOutcome(a, []);
    RunOutcome(b, []);
    forall k
      ensures Lookup(Run(EMPTY, a).value.values, k) == Lookup(Run(EMPTY, b).value.values, k)
    {
      SameExpectation(a, b, k);
      RunOutcome(a, k);
      RunOutcome(b, k);
    }
    SameLookups(Run(EMPTY, a).value.values, Run(EMPTY, b).value.values);
    RunKeepsIndex(a);
    RunKeepsIndex(b);
    SameLists(Run(EMPTY, a).value, Run(EMPTY, b).value);
  }

  lemma SameLookups(a: map<Key, DbElement>, b: map<Key, DbElement>)
    requires forall k :: Lookup(a, k) == Lookup(b, k)
    ensures a == b
  {
    assert forall k :: (k in a <==> Lookup(a, k).Some?) && (k in b <==> Lookup(b, k).Some?);
    assert forall k | k in a :: Lookup(a, k) == Some(a[k]) && Lookup(b, k) == Some(b[k]);
  }

  lemma SameLists(a: Mailbox, b: Mailbox)
    requires IndexOk(a) && IndexOk(b) && a.values == b.values
    ensures forall t, k :: Has(TraitList(a.index, t), k) <==> Has(TraitList(b.index, t), k)
  {
  }

  lemma SameExpectation(a: seq<Op>, b: seq<Op>, k: Key)
    requires AtMostOnce(a) && AtMostOnce(b) && PutsMarshal(a) && (forall op :: op in a <==> op in b)
    ensures Expected(a, k) == Expected(b, k)
  {
    OnceOutcome(a, k);
    OnceOutcome(b, k);
    assert Puts(a, k) <==> Puts(b, k);
    assert Removes(a, k) <==> Removes(b, k);
    if Puts(a, k) {
      var op :| op in a && op.Put? && OpKey(op) == k;
      assert op in b;
    }
  }
}
