/**
 genesis/genesis.go, FromConfig: every unit of the initial supply ends up with exactly one X-chain
 holder, in one unstaked UTXO or in one staked UTXO, for the same addresses and lock time; and when
 building the genesis panics. Address formatting and the chains' own genesis builders are not part
 of this model.
 */
module GenesisAccounting {
  import opened Wrappers
  import opened Bytes
  import opened Sorting
  import opened Genesis

  datatype Holder = Holder(amount: nat, addr: Address)
  datatype UTXO = UTXO(locktime: uint64, amount: nat, addr: Address, message: bytes)
  datatype Validator = Validator(staker: Staker, staked: seq<UTXO>)
  datatype Built = Built(holders: seq<Holder>, utxos: seq<UTXO>, validators: seq<Validator>, initialSupply: nat)

  datatype Outcome = Success(built: Built) | SupplyOverflow | Panic

  // ---------- What is counted ----------

  function HolderTotal(hs: seq<Holder>): nat {
    if hs == [] then 0 else hs[0].amount + HolderTotal(hs[1..])
  }

  function If(b: bool, amount: nat): nat {
    if b then amount else 0
  }

  function Held(hs: seq<Holder>, addr: Address): nat {
    if hs == [] then 0 else If(hs[0].addr == addr, hs[0].amount) + Held(hs[1..], addr)
  }

  // Unlocked money of an address.
  function Holdings(xs: seq<Allocation>, addr: Address): nat {
    if xs == [] then 0
    else Holdings(xs[..|xs| - 1], addr) + If(xs[|xs| - 1].avaxAddr == addr, xs[|xs| - 1].initialAmount)
  }

  function UtxoTotal(us: seq<UTXO>): nat {
    if us == [] then 0 else UtxoTotal(us[..|us| - 1]) + us[|us| - 1].amount
  }

  function UtxoAmount(us: seq<UTXO>, c: Coin): nat {
    if us == [] then 0
    else
      var u := us[|us| - 1];
      UtxoAmount(us[..|us| - 1], c) + If(Coin(u.message, u.addr, u.locktime) == c, u.amount)
  }

  function StakeTotal(vs: seq<Validator>): nat {
    if vs == [] then 0 else StakeTotal(vs[..|vs| - 1]) + UtxoTotal(vs[|vs| - 1].staked)
  }

  function StakeAmount(vs: seq<Validator>, c: Coin): nat {
    if vs == [] then 0 else StakeAmount(vs[..|vs| - 1], c) + UtxoAmount(vs[|vs| - 1].staked, c)
  }

  // The allocations whose address is, or is not, among the initially staked funds.
  function Chosen(xs: seq<Allocation>, funds: seq<Address>, staked: bool): seq<Allocation> {
    if xs == [] then []
    else Chosen(xs[..|xs| - 1], funds, staked) + if (xs[|xs| - 1].avaxAddr in funds) == staked then [xs[|xs| - 1]]
        else []
  }

  lemma {:induction false} StakedAndUnstaked(xs: seq<Allocation>, funds: seq<Address>, c: Coin)
    ensures Total(Chosen(xs, funds, true)) + Total(Chosen(xs, funds, false)) == Total(xs)
    ensures Amount(Chosen(xs, funds, true), c) + Amount(Chosen(xs, funds, false), c) == Amount(xs, c)
  {
    if xs != [] {
      var init, a := xs[..|xs| - 1], xs[|xs| - 1];
      StakedAndUnstaked(init, funds, c);
      var side := a.avaxAddr in funds;
      TotalAppend(Chosen(init, funds, side), a);
      AmountAppend(Chosen(init, funds, side), a, c);
      assert Chosen(xs, funds, !side) == Chosen(init, funds, !side);
    }
  }

  // ---------- X-chain holders ----------

  function Funded(xs: seq<Allocation>): seq<Allocation> {
    if xs == [] then [] else Funded(xs[..|xs| - 1]) + if xs[|xs| - 1].initialAmount > 0 then [xs[|xs| - 1]] else []
  }

  function ToHolders(xs: seq<Allocation>): seq<Holder> {
    seq(|xs|, i requires 0 <= i < |xs| => Holder(xs[i].initialAmount, xs[i].avaxAddr))
  }

  // Not greater in the order of innerSortXAllocation.
  predicate NotAbove(a: Allocation, b: Allocation) {
    !(b.initialAmount < a.initialAmount || (b.initialAmount == a.initialAmount && Less(b.avaxAddr, a.avaxAddr)))
  }

  lemma ToHoldersCons(a: Allocation, xs: seq<Allocation>, addr: Address)
    ensures HolderTotal(ToHolders([a] + xs)) == a.initialAmount + HolderTotal(ToHolders(xs))
    ensures Held(ToHolders([a] + xs), addr) == If(a.avaxAddr == addr, a.initialAmount) + Held(ToHolders(xs), addr)
  {
    assert ToHolders([a] + xs)[1..] == ToHolders(xs);
  }

  lemma {:induction false} InsertKeeps(a: Allocation, xs: seq<Allocation>, addr: Address)
    ensures HolderTotal(ToHolders(Insert(a, xs, NotAbove))) == a.initialAmount + HolderTotal(ToHolders(xs))
    ensures Held(ToHolders(Insert(a, xs, NotAbove)), addr) ==
            If(a.avaxAddr == addr, a.initialAmount) + Held(ToHolders(xs), addr)
  {
    ToHoldersCons(a, xs, addr);
    if xs != [] && !NotAbove(a, xs[0]) {
      InsertKeeps(a, xs[1..], addr);
      ToHoldersCons(xs[0], xs[1..], addr);
      assert xs == [xs[0]] + xs[1..];
      ToHoldersCons(xs[0], Insert(a, xs[1..], NotAbove), addr);
    }
  }

  // The order of the holders changes nothing.
  lemma {:induction false} SortKeeps(xs: seq<Allocation>, addr: Address)
    ensures HolderTotal(ToHolders(Sort(xs, NotAbove))) == HolderTotal(ToHolders(xs))
    ensures Held(ToHolders(Sort(xs, NotAbove)), addr) == Held(ToHolders(xs), addr)
  {
    if xs != [] {
      SortKeeps(xs[1..], addr);
      InsertKeeps(xs[0], Sort(xs[1..], NotAbove), addr);
      ToHoldersCons(xs[0], xs[1..], addr);
      assert xs == [xs[0]] + xs[1..];
    }
  }

  lemma {:induction false} ToHoldersSnoc(xs: seq<Allocation>, a: Allocation, addr: Address)
    ensures HolderTotal(ToHolders(xs + [a])) == HolderTotal(ToHolders(xs)) + a.initialAmount
    ensures Held(ToHolders(xs + [a]), addr) == Held(ToHolders(xs), addr) + If(a.avaxAddr == addr, a.initialAmount)
  {
    if xs == [] {
      ToHoldersCons(a, [], addr);
      assert [a] + [] == xs + [a];
    } else {
      ToHoldersSnoc(xs[1..], a, addr);
      ToHoldersCons(xs[0], xs[1..] + [a], addr);
      ToHoldersCons(xs[0], xs[1..], addr);
      assert xs + [a] == [xs[0]] + (xs[1..] + [a]) && xs == [xs[0]] + xs[1..];
    }
  }

  lemma {:induction false} FundedHolders(xs: seq<Allocation>, addr: Address)
    ensures HolderTotal(ToHolders(Funded(xs))) == InitialTotal(xs) &&
            Held(ToHolders(Funded(xs)), addr) == Holdings(xs, addr)
  {
    if xs != [] {
      var init, a := xs[..|xs| - 1], xs[|xs| - 1];
      FundedHolders(init, addr);
      if a.initialAmount > 0 {
        ToHoldersSnoc(Funded(init), a, addr);
      } else {
        assert Funded(xs) == Funded(init);
      }
    }
  }

  lemma HoldersCount(xs: seq<Allocation>)
    ensures var holders := ToHolders(Sort(Funded(xs), NotAbove));
            HolderTotal(holders) == InitialTotal(xs) && forall addr :: Held(holders, addr) == Holdings(xs, addr)
  {
    FundedHolders(xs, []);
    SortKeeps(Funded(xs), []);
    forall addr
      ensures Held(ToHolders(Sort(Funded(xs), NotAbove)), addr) == Holdings(xs, addr)
    {
      FundedHolders(xs, addr);
      SortKeeps(Funded(xs), addr);
    }
  }

  method XHolders(allocations: seq<Allocation>) returns (holders: seq<Holder>)
    ensures HolderTotal(holders) == InitialTotal(allocations) &&
            forall addr :: Held(holders, addr) == Holdings(allocations, addr)
  {
    var xAllocations: seq<Allocation> := [];
    for i := 0 to |allocations|
      invariant xAllocations == Funded(allocations[..i])
    {
      assert allocations[..i + 1][..i] == allocations[..i];
      if allocations[i].initialAmount > 0 {
        xAllocations := xAllocations + [allocations[i]];
      }
    }
    assert allocations[..|allocations|] == allocations;
    HoldersCount(allocations);
    xAllocations := Sort(xAllocations, NotAbove);
    holders := [];
    for i := 0 to |xAllocations|
      invariant holders == ToHolders(xAllocations[..i])
    {
      holders := holders + [Holder(xAllocations[i].initialAmount, xAllocations[i].avaxAddr)];
    }
    assert xAllocations[..|xAllocations|] == xAllocations;
  }

  // ---------- UTXOs ----------

  // Unstaked schedules leave out zero amounts; staked ones do not.
  function ScheduleUtxos(a: Allocation, us: seq<LockedAmount>, keepZero: bool): seq<UTXO> {
    if us == [] then []
    else
      var u := us[|us| - 1];
      ScheduleUtxos(a, us[..|us| - 1], keepZero) +
      if keepZero || u.amount > 0 then [UTXO(u.locktime, u.amount, a.avaxAddr, a.ethAddr)] else []
  }

  function ToUtxos(xs: seq<Allocation>, keepZero: bool): seq<UTXO> {
    if xs == [] then []
    else ToUtxos(xs[..|xs| - 1], keepZero) + ScheduleUtxos(xs[|xs| - 1], xs[|xs| - 1].unlockSchedule, keepZero)
  }

  lemma UtxoAppend(us: seq<UTXO>, u: UTXO, c: Coin)
    ensures UtxoTotal(us + [u]) == UtxoTotal(us) + u.amount
    ensures UtxoAmount(us + [u], c) == UtxoAmount(us, c) + If(Coin(u.message, u.addr, u.locktime) == c, u.amount)
  {
    assert (us + [u])[..|us|] == us;
  }

  lemma {:induction false} UtxoConcat(us: seq<UTXO>, vs: seq<UTXO>, c: Coin)
    ensures UtxoTotal(us + vs) == UtxoTotal(us) + UtxoTotal(vs) &&
            UtxoAmount(us + vs, c) == UtxoAmount(us, c) + UtxoAmount(vs, c)
  {
    if vs == [] {
      assert us + vs == us;
    } else {
      assert us + vs == us + vs[..|vs| - 1] + [vs[|vs| - 1]];
      UtxoConcat(us, vs[..|vs| - 1], c);
      UtxoAppend(us + vs[..|vs| - 1], vs[|vs| - 1], c);
    }
  }

  lemma {:induction false} ScheduleUtxosCount(a: Allocation, us: seq<LockedAmount>, keepZero: bool, c: Coin)
    ensures UtxoTotal(ScheduleUtxos(a, us, keepZero)) == ScheduleTotal(us)
    ensures UtxoAmount(ScheduleUtxos(a, us, keepZero), c) == ScheduleAmount(a, us, c)
  {
    if us != [] {
      var init, u := us[..|us| - 1], us[|us| - 1];
      ScheduleUtxosCount(a, init, keepZero, c);
      UtxoAppend(ScheduleUtxos(a, init, keepZero), UTXO(u.locktime, u.amount, a.avaxAddr, a.ethAddr), c);
      if !(keepZero || u.amount > 0) {
        assert ScheduleUtxos(a, us, keepZero) == ScheduleUtxos(a, init, keepZero);
      }
    }
  }

  lemma {:induction false} ToUtxosCount(xs: seq<Allocation>, keepZero: bool, c: Coin)
    ensures UtxoTotal(ToUtxos(xs, keepZero)) == Total(xs) && UtxoAmount(ToUtxos(xs, keepZero), c) == Amount(xs, c)
  {
    if xs != [] {
      var init, a := xs[..|xs| - 1], xs[|xs| - 1];
      ToUtxosCount(init, keepZero, c);
      ScheduleUtxosCount(a, a.unlockSchedule, keepZero, c);
      UtxoConcat(ToUtxos(init, keepZero), ScheduleUtxos(a, a.unlockSchedule, keepZero), c);
    }
  }

  method AppendUtxos(utxos: seq<UTXO>, a: Allocation, keepZero: bool) returns (longer: seq<UTXO>)
    ensures longer == utxos + ScheduleUtxos(a, a.unlockSchedule, keepZero)
  {
    longer := utxos;
    var us := a.unlockSchedule;
    for j := 0 to |us|
      invariant longer == utxos + ScheduleUtxos(a, us[..j], keepZero)
    {
      assert us[..j + 1][..j] == us[..j];
      if keepZero || us[j].amount > 0 {
        longer := longer + [UTXO(us[j].locktime, us[j].amount, a.avaxAddr, a.ethAddr)];
      }
    }
    assert us[..|us|] == us;
  }

  // The unstaked UTXOs, and the allocations put aside for the stakers.
  method PlatformUtxos(allocations: seq<Allocation>, funds: seq<Address>)
    returns (utxos: seq<UTXO>, skipped: seq<Allocation>)
    ensures utxos == ToUtxos(Chosen(allocations, funds, false), false)
    ensures skipped == Chosen(allocations, funds, true)
  {
    utxos, skipped := [], [];
    for i := 0 to |allocations|
      invariant utxos == ToUtxos(Chosen(allocations[..i], funds, false), false)
      invariant skipped == Chosen(allocations[..i], funds, true)
    {
      assert allocations[..i + 1][..i] == allocations[..i];
      ghost var before := Chosen(allocations[..i], funds, false);
      if allocations[i].avaxAddr in funds {
        skipped := skipped + [allocations[i]];
        assert Chosen(allocations[..i + 1], funds, false) == before;
      } else {
        assert (before + [allocations[i]])[..|before|] == before;
        utxos := AppendUtxos(utxos, allocations[i], false);
      }
    }
    assert allocations[..|allocations|] == allocations;
  }

  method StakedUtxos(group: seq<Allocation>) returns (utxos: seq<UTXO>)
    ensures utxos == ToUtxos(group, true)
  {
    utxos := [];
    for i := 0 to |group|
      invariant utxos == ToUtxos(group[..i], true)
    {
      assert group[..i + 1][..i] == group[..i];
      utxos := AppendUtxos(utxos, group[i], true);
    }
    assert group[..|group|] == group;
  }

  // ---------- Validators ----------

  function ToValidators(stakers: seq<Staker>, groups: seq<seq<Allocation>>): seq<Validator>
    requires |stakers| <= |groups|
  {
    seq(|stakers|, i requires 0 <= i < |stakers| => Validator(stakers[i], ToUtxos(groups[i], true)))
  }

  // Every staker needs a group of their own.
  method Validators(stakers: seq<Staker>, groups: seq<seq<Allocation>>) returns (r: Option<seq<Validator>>)
    ensures r.Some? <==> |stakers| <= |groups|
    ensures r.Some? ==> r.value == ToValidators(stakers, groups)
  {
    var validators: seq<Validator> := [];
    for i := 0 to |stakers|
      invariant i <= |groups| && validators == ToValidators(stakers[..i], groups)
    {
      if i >= |groups| {
        return None;
      }
      var utxos := StakedUtxos(groups[i]);
      validators := validators + [Validator(stakers[i], utxos)];
    }
    assert stakers[..|stakers|] == stakers;
    return Some(validators);
  }

  lemma {:induction false} ValidatorsCount(stakers: seq<Staker>, groups: seq<seq<Allocation>>, c: Coin)
    requires |stakers| == |groups|
    ensures StakeTotal(ToValidators(stakers, groups)) == GroupTotal(groups)
    ensures StakeAmount(ToValidators(stakers, groups), c) == GroupAmount(groups, c)
  {
    if stakers != [] {
      var n := |stakers| - 1;
      ValidatorsCount(stakers[..n], groups[..n], c);
      assert ToValidators(stakers, groups)[..n] == ToValidators(stakers[..n], groups[..n]);
      ToUtxosCount(groups[n], true, c);
    }
  }

  lemma Shares(total: nat, n: nat)
    requires n > 0
    ensures (n - 1) * (total / n) + total / n + total % n == total
  {
    var w := total / n;
    assert total == n * w + total % n;
    assert (n - 1) * w == n * w - w;
  }

  lemma SharesTotal(groups: seq<seq<Allocation>>, w: nat)
    requires groups != [] && forall i | 0 <= i < |groups| - 1 :: Total(groups[i]) == w
    ensures GroupTotal(groups) == (|groups| - 1) * w + Total(groups[|groups| - 1])
  {
    EqualGroups(groups[..|groups| - 1], w);
  }

  lemma FairTotal(xs: seq<Allocation>, n: nat, groups: seq<seq<Allocation>>)
    requires n > 0 && FairSplit(xs, n, groups) && Total(xs) > 0
    ensures GroupTotal(groups) == Total(xs)
  {
    Shares(Total(xs), n);
    SharesTotal(groups, Total(xs) / n);
  }

  // ---------- FromConfig ----------

  ghost predicate Accounted(config: Config, b: Built) {
    var staked := Chosen(config.allocations, config.initialStakedFunds, true);
    var n, total := |config.initialStakers|, Total(staked);
    && b.initialSupply == Supply(config.allocations)
    && HolderTotal(b.holders) + UtxoTotal(b.utxos) + StakeTotal(b.validators) == b.initialSupply
    && (forall addr :: Held(b.holders, addr) == Holdings(config.allocations, addr))
    && (forall c :: UtxoAmount(b.utxos, c) == Amount(Chosen(config.allocations, config.initialStakedFunds, false), c))
    && (forall c :: StakeAmount(b.validators, c) == Amount(staked, c))
    && (forall c :: UtxoAmount(b.utxos, c) + StakeAmount(b.validators, c) == Amount(config.allocations, c))
    && |b.validators| == n > 0
    && (forall i | 0 <= i < n ::
          && b.validators[i].staker == config.initialStakers[i]
          && UtxoTotal(b.validators[i].staked) == total / n + if i == n - 1 then total % n else 0)
  }

  // Building the genesis panics: no stakers at all, or more than one and nothing to stake.
  predicate Panics(config: Config) {
    || |config.initialStakers| == 0
    || (|config.initialStakers| > 1 && Total(Chosen(config.allocations, config.initialStakedFunds, true)) == 0)
  }

  // Stakers get their shares.
  lemma SharesAccounted(staked: seq<Allocation>, stakers: seq<Staker>, groups: seq<seq<Allocation>>, vs: seq<Validator>)
    requires var n := |stakers|;
             n > 0 && FairSplit(staked, n, groups) && (Total(staked) > 0 || n == 1) && |groups| == n &&
                 vs == ToValidators(stakers, groups)
    ensures StakeTotal(vs) == Total(staked)
    ensures forall c :: StakeAmount(vs, c) == Amount(staked, c)
    ensures var n, total := |stakers|, Total(staked);
            forall i | 0 <= i < n :: UtxoTotal(vs[i].staked) == total / n + if i == n - 1 then total % n else 0
  {
    var n := |stakers|;
    if Total(staked) > 0 {
      FairTotal(staked, n, groups);
    } else {
      SharesTotal(groups, 0);
      ZeroShares(n);
    }
    forall c
      ensures StakeTotal(vs) == GroupTotal(groups) && StakeAmount(vs, c) == Amount(staked, c)
    {
      ValidatorsCount(stakers, groups, c);
    }
    ValidatorsCount(stakers, groups, Coin([], [], 0));
    forall i | 0 <= i < n
      ensures UtxoTotal(vs[i].staked) == Total(groups[i])
    {
      ToUtxosCount(groups[i], true, Coin([], [], 0));
    }
  }

  lemma ZeroShares(n: nat)
    requires n > 0
    ensures 0 / n == 0 && 0 % n == 0
  {
  }

  // The unstaked money stays where it was.
  lemma UnstakedAccounted(xs: seq<Allocation>, funds: seq<Address>)
    ensures var utxos, unstaked, staked :=
            ToUtxos(Chosen(xs, funds, false), false), Chosen(xs, funds, false), Chosen(xs, funds, true);
            && UtxoTotal(utxos) + Total(staked) == Total(xs)
            && (forall c :: UtxoAmount(utxos, c) == Amount(unstaked, c))
            && (forall c :: UtxoAmount(utxos, c) + Amount(staked, c) == Amount(xs, c))
  {
    var unstaked, staked := Chosen(xs, funds, false), Chosen(xs, funds, true);
    forall c
      ensures UtxoAmount(ToUtxos(unstaked, false), c) == Amount(unstaked, c) == Amount(xs, c) - Amount(staked, c)
    {
      ToUtxosCount(unstaked, false, c);
      StakedAndUnstaked(xs, funds, c);
    }
    ToUtxosCount(unstaked, false, Coin([], [], 0));
    StakedAndUnstaked(xs, funds, Coin([], [], 0));
  }

  method FromConfig(config: Config) returns (r: Outcome)
    ensures r == SupplyOverflow <==> Supply(config.allocations) > MAX_UINT64
    ensures r == Panic <==> Supply(config.allocations) <= MAX_UINT64 && Panics(config)
    ensures r.Success? ==> Accounted(config, r.built)
  {
    var holders := XHolders(config.allocations);
    var initialSupply := InitialSupply(config.allocations);
    if initialSupply.None? {
      return SupplyOverflow;
    }
    var utxos, skipped := PlatformUtxos(config.allocations, config.initialStakedFunds);
    StakedAndUnstaked(config.allocations, config.initialStakedFunds, Coin([], [], 0));
    var groups := SplitAllocations(skipped, |config.initialStakers|);
    if groups.None? {
      return Panic;
    }
    var validators := Validators(config.initialStakers, groups.value);
    if validators.None? {
      return Panic;
    }
    SharesAccounted(skipped, config.initialStakers, groups.value, validators.value);
    UnstakedAccounted(config.allocations, config.initialStakedFunds);
    return Success(Built(holders, utxos, validators.value, initialSupply.value));
  }

  // ---------- validateConfig ----------

  predicate ValidStakedFunds(config: Config) {
    && config.initialStakedFunds != []
    && (forall i, j | 0 <= i < j < |config.initialStakedFunds| ::
        config.initialStakedFunds[i] != config.initialStakedFunds[j])
    && forall i | 0 <= i < |config.initialStakedFunds| ::
         exists k | 0 <= k < |config.allocations| :: config.allocations[k].avaxAddr == config.initialStakedFunds[i]
  }

  function OffsetTimeRequired(offset: uint64, stakers: nat): nat {
    offset * (stakers - 1) % (MAX_UINT64 + 1)
  }

  lemma NoOffset(stakers: nat)
    ensures OffsetTimeRequired(0, stakers) == 0
  {
  }

  predicate ValidConfig(networkID: uint32, config: Config, now: uint64) {
    && networkID == config.networkID
    && 0 < Supply(config.allocations) <= MAX_UINT64
    && config.startTime <= now
    && config.initialStakeDuration != 0
    && config.initialStakers != []
    && OffsetTimeRequired(config.initialStakeDurationOffset, |config.initialStakers|) <= config.initialStakeDuration
    && ValidStakedFunds(config)
    && config.cChainGenesis != []
  }

  // An address or a node ID: twenty bytes.
  function ShortID(x: byte): bytes {
    seq(20, _ => x)
  }

  const UNSTAKEABLE := Config(
    1, [Allocation(ShortID(1), ShortID(2), 5, [])], 0, 1, 0, [ShortID(2)],
    [Staker(ShortID(3), ShortID(4), 0), Staker(ShortID(5), ShortID(6), 0)], "{}")

  // Validation does not look at what there is to stake: two stakers and staked funds without a schedule
  // pass it, and building then panics.
  lemma ValidConfigMayPanic()
    ensures ValidConfig(1, UNSTAKEABLE, 0) && Panics(UNSTAKEABLE)
  {
    var a := Allocation(ShortID(1), ShortID(2), 5, []);
    assert [a][..0] == [] && InitialTotal([a]) == 5 && Total([a]) == 0;
    assert Chosen([a], [ShortID(2)], true) == [a];
    assert UNSTAKEABLE.allocations[0].avaxAddr == UNSTAKEABLE.initialStakedFunds[0];
    NoOffset(2);
  }
}
