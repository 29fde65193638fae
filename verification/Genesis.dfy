/**
 genesis/genesis.go and genesis/config.go: how the initial supply is counted, how locked allocations
 of stakers are split into groups of equal weight, and where every unit of the supply ends up.

 Amounts are unbounded here. The source adds them as uint64: InitialSupply refuses a supply that does
 not fit, and every sum formed later is part of that supply.
 */
module Genesis {
  import opened Wrappers
  import opened Bytes
  import opened Sorting

  type Address = bytes

  datatype LockedAmount = LockedAmount(amount: nat, locktime: uint64)

  datatype Allocation = Allocation(ethAddr: Address, avaxAddr: Address, initialAmount: nat,
                                   unlockSchedule: seq<LockedAmount>)

  datatype Staker = Staker(nodeID: bytes, rewardAddress: Address, delegationFee: uint32)

  datatype Config = Config(
    networkID: uint32,
    allocations: seq<Allocation>,
    startTime: uint64,
    initialStakeDuration: uint64,
    initialStakeDurationOffset: uint64,
    initialStakedFunds: seq<Address>,
    initialStakers: seq<Staker>,
    cChainGenesis: string)

  // ---------- Amounts ----------

  function ScheduleTotal(us: seq<LockedAmount>): nat {
    if us == [] then 0 else ScheduleTotal(us[..|us| - 1]) + us[|us| - 1].amount
  }

  // The locked money of the allocations.
  function Total(xs: seq<Allocation>): nat {
    if xs == [] then 0 else Total(xs[..|xs| - 1]) + ScheduleTotal(xs[|xs| - 1].unlockSchedule)
  }

  // The unlocked money.
  function InitialTotal(xs: seq<Allocation>): nat {
    if xs == [] then 0 else InitialTotal(xs[..|xs| - 1]) + xs[|xs| - 1].initialAmount
  }

  function Supply(xs: seq<Allocation>): nat {
    InitialTotal(xs) + Total(xs)
  }

  lemma {:induction false} ScheduleGrows(us: seq<LockedAmount>, n: nat)
    requires n <= |us|
    ensures ScheduleTotal(us[..n]) <= ScheduleTotal(us)
  {
    if n == |us| {
      assert us[..n] == us;
    } else {
      assert us[..|us| - 1][..n] == us[..n];
      ScheduleGrows(us[..|us| - 1], n);
    }
  }

  lemma {:induction false} TotalGrows(xs: seq<Allocation>, n: nat)
    requires n <= |xs|
    ensures Total(xs[..n]) <= Total(xs) && InitialTotal(xs[..n]) <= InitialTotal(xs)
  {
    if n == |xs| {
      assert xs[..n] == xs;
    } else {
      assert xs[..|xs| - 1][..n] == xs[..n];
      TotalGrows(xs[..|xs| - 1], n);
    }
  }

  // Partial sums, one allocation or one unlock further.
  lemma OneMoreAllocation(xs: seq<Allocation>, i: nat)
    requires i < |xs|
    ensures Total(xs[..i + 1]) == Total(xs[..i]) + ScheduleTotal(xs[i].unlockSchedule) <= Total(xs)
    ensures InitialTotal(xs[..i + 1]) == InitialTotal(xs[..i]) + xs[i].initialAmount <= InitialTotal(xs)
  {
    assert xs[..i + 1][..i] == xs[..i];
    TotalGrows(xs, i + 1);
  }

  lemma OneMoreUnlock(us: seq<LockedAmount>, j: nat)
    requires j < |us|
    ensures ScheduleTotal(us[..j + 1]) == ScheduleTotal(us[..j]) + us[j].amount <= ScheduleTotal(us)
  {
    assert us[..j + 1][..j] == us[..j];
    ScheduleGrows(us, j + 1);
  }

  function GroupTotal(gs: seq<seq<Allocation>>): nat {
    if gs == [] then 0 else GroupTotal(gs[..|gs| - 1]) + Total(gs[|gs| - 1])
  }

  lemma TotalAppend(xs: seq<Allocation>, a: Allocation)
    ensures Total(xs + [a]) == Total(xs) + ScheduleTotal(a.unlockSchedule)
  {
    assert (xs + [a])[..|xs|] == xs;
  }

  // ---------- InitialSupply ----------

  function Add64(a: nat, b: nat): Option<nat> {
    if a > MAX_UINT64 - b then None else Some(a + b)
  }

  // The sum of all amounts, or an error exactly if it overflows.
  method InitialSupply(allocations: seq<Allocation>) returns (r: Option<nat>)
    ensures r == if Supply(allocations) <= MAX_UINT64 then Some(Supply(allocations)) else None
  {
    var initialSupply := 0;
    for i := 0 to |allocations|
      invariant initialSupply == Supply(allocations[..i]) <= MAX_UINT64
    {
      var us := allocations[i].unlockSchedule;
      OneMoreAllocation(allocations, i);
      var sum := Add64(initialSupply, allocations[i].initialAmount);
      if sum.None? {
        return None;
      }
      for j := 0 to |us|
        invariant sum.Some? &&
                  sum.value == initialSupply + allocations[i].initialAmount + ScheduleTotal(us[..j]) <= MAX_UINT64
      {
        OneMoreUnlock(us, j);
        sum := Add64(sum.value, us[j].amount);
        if sum.None? {
          return None;
        }
      }
      assert us[..|us|] == us;
      initialSupply := sum.value;
    }
    assert allocations[..|allocations|] == allocations;
    return Some(initialSupply);
  }

  // ---------- splitAllocations as functions ----------

  // The loop variables: finished groups, the group being filled, its last allocation, and its amount.
  datatype Progress = Progress(groups: seq<seq<Allocation>>, group: seq<Allocation>, last: Allocation, amount: nat)

  function Empty(a: Allocation): Allocation {
    a.(initialAmount := 0, unlockSchedule := [])
  }

  function Extended(a: Allocation, amount: nat, locktime: uint64): Allocation {
    a.(unlockSchedule := a.unlockSchedule + [LockedAmount(amount, locktime)])
  }

  // The current group takes `add` and is finished.
  function Closed(p: Progress, add: nat, locktime: uint64): Progress {
    Progress(p.groups + [p.group + [Extended(p.last, add, locktime)]], [], Empty(p.last), 0)
  }

  function Added(p: Progress, add: nat, locktime: uint64): Progress {
    p.(last := Extended(p.last, add, locktime), amount := p.amount + add)
  }

  // Only the n-th group may be overfull.
  predicate Fits(p: Progress, w: nat, n: nat) {
    |p.groups| < n - 1 ==> p.amount <= w
  }

  // Deals out one unlock: fills up groups while it is more than the current one lacks, and puts the rest
  // into the current one.
  function Deal(p: Progress, w: nat, n: nat, left: nat, locktime: uint64): (q: Progress)
    requires Fits(p, w, n)
    ensures Fits(q, w, n) && q.last.ethAddr == p.last.ethAddr && q.last.avaxAddr == p.last.avaxAddr
    decreases n - |p.groups|
  {
    if p.amount + left > w && |p.groups| < n - 1 then
      Deal(Closed(p, w - p.amount, locktime), w, n, left - (w - p.amount), locktime)
    else if left == 0 then p
    else Added(p, left, locktime)
  }

  function DealUnlocks(p: Progress, w: nat, n: nat, us: seq<LockedAmount>): (q: Progress)
    requires Fits(p, w, n)
    ensures Fits(q, w, n) && q.last.ethAddr == p.last.ethAddr && q.last.avaxAddr == p.last.avaxAddr
  {
    if us == [] then p else Deal(DealUnlocks(p, w, n, us[..|us| - 1]), w, n, us[|us| - 1].amount, us[|us| - 1].locktime)
  }

  // The last allocation joins its group if it got anything.
  function Joined(p: Progress): Progress {
    p.(group := if |p.last.unlockSchedule| > 0 then p.group + [p.last] else p.group, last := Empty(p.last))
  }

  const START := Progress([], [], Allocation([], [], 0, []), 0)

  function DealAll(xs: seq<Allocation>, w: nat, n: nat): (q: Progress)
    ensures Fits(q, w, n) && q.last.unlockSchedule == []
  {
    if xs == [] then START
    else
      var a := xs[|xs| - 1];
      Joined(DealUnlocks(DealAll(xs[..|xs| - 1], w, n).(last := Empty(a)), w, n, a.unlockSchedule))
  }

  // ---------- Equal shares ----------

  // Nothing unlocked is given twice, and every allocation in a group has a schedule.
  ghost predicate Zeroed(xs: seq<Allocation>) {
    forall a | a in xs :: a.initialAmount == 0 && a.unlockSchedule != []
  }

  // `total` has been dealt out: less than n full groups of weight w and the group being filled.
  ghost predicate Balanced(p: Progress, w: nat, n: nat, total: nat) {
    && |p.groups| < n
    && (forall g | g in p.groups :: Total(g) == w && Zeroed(g))
    && p.amount == Total(p.group) + ScheduleTotal(p.last.unlockSchedule) <= total
    && GroupTotal(p.groups) + p.amount == total
    && Zeroed(p.group) && p.last.initialAmount == 0
  }

  lemma ExtendedTotal(a: Allocation, amount: nat, locktime: uint64)
    ensures ScheduleTotal(Extended(a, amount, locktime).unlockSchedule) == ScheduleTotal(a.unlockSchedule) + amount
  {
    assert Extended(a, amount, locktime).unlockSchedule[..|a.unlockSchedule|] == a.unlockSchedule;
  }

  lemma ClosedBalanced(p: Progress, w: nat, n: nat, total: nat, add: nat, locktime: uint64)
    requires Balanced(p, w, n, total) && |p.groups| < n - 1 && p.amount + add == w
    ensures Balanced(Closed(p, add, locktime), w, n, total + add)
  {
    FullGroup(p.group, p.last, add, locktime);
    OneMoreGroup(p.groups, p.group + [Extended(p.last, add, locktime)]);
    assert ScheduleTotal(Empty(p.last).unlockSchedule) == 0;
  }

  lemma FullGroup(group: seq<Allocation>, last: Allocation, add: nat, locktime: uint64)
    requires Zeroed(group) && last.initialAmount == 0
    ensures Total(group + [Extended(last, add, locktime)]) == Total(group) + ScheduleTotal(last.unlockSchedule) + add
    ensures Zeroed(group + [Extended(last, add, locktime)])
  {
    ExtendedTotal(last, add, locktime);
    TotalAppend(group, Extended(last, add, locktime));
  }

  lemma OneMoreGroup(groups: seq<seq<Allocation>>, g: seq<Allocation>)
    ensures GroupTotal(groups + [g]) == GroupTotal(groups) + Total(g)
  {
    assert (groups + [g])[..|groups|] == groups;
  }

  lemma AddedBalanced(p: Progress, w: nat, n: nat, total: nat, add: nat, locktime: uint64)
    requires Balanced(p, w, n, total)
    ensures add > 0 ==> Balanced(Added(p, add, locktime), w, n, total + add)
  {
    ExtendedTotal(p.last, add, locktime);
  }

  lemma {:induction false} DealBalanced(p: Progress, w: nat, n: nat, total: nat, left: nat, locktime: uint64,
                                        q: Progress)
    requires Balanced(p, w, n, total) && Fits(p, w, n) && q == Deal(p, w, n, left, locktime)
    ensures Balanced(q, w, n, total + left)
    decreases n - |p.groups|
  {
    if p.amount + left > w && |p.groups| < n - 1 {
      var add := w - p.amount;
      ClosedBalanced(p, w, n, total, add, locktime);
      DealBalanced(Closed(p, add, locktime), w, n, total + add, left - add, locktime, q);
    } else {
      AddedBalanced(p, w, n, total, left, locktime);
    }
  }

  lemma {:induction false} DealUnlocksBalanced(p: Progress, w: nat, n: nat, total: nat, us: seq<LockedAmount>)
    requires Balanced(p, w, n, total) && Fits(p, w, n)
    ensures Balanced(DealUnlocks(p, w, n, us), w, n, total + ScheduleTotal(us))
  {
    if us != [] {
      var init, u := us[..|us| - 1], us[|us| - 1];
      DealUnlocksBalanced(p, w, n, total, init);
      DealBalanced(DealUnlocks(p, w, n, init), w, n, total + ScheduleTotal(init), u.amount, u.locktime,
                   DealUnlocks(p, w, n, us));
    }
  }

  lemma JoinedBalanced(p: Progress, w: nat, n: nat, total: nat)
    requires Balanced(p, w, n, total)
    ensures Balanced(Joined(p), w, n, total)
  {
    TotalAppend(p.group, p.last);
  }

  lemma {:induction false} DealAllBalanced(xs: seq<Allocation>, w: nat, n: nat)
    requires n > 0
    ensures Balanced(DealAll(xs, w, n), w, n, Total(xs))
  {
    if xs != [] {
      var init, a := xs[..|xs| - 1], xs[|xs| - 1];
      DealAllBalanced(init, w, n);
      var p := DealAll(init, w, n).(last := Empty(a));
      DealUnlocksBalanced(p, w, n, Total(init), a.unlockSchedule);
      JoinedBalanced(DealUnlocks(p, w, n, a.unlockSchedule), w, n, Total(xs));
    }
  }

  // With nothing to deal out no group is finished.
  lemma {:induction false} NothingDealt(p: Progress, n: nat, us: seq<LockedAmount>)
    requires p.amount == 0 && ScheduleTotal(us) == 0
    ensures DealUnlocks(p, 0, n, us) == p
  {
    if us != [] {
      NothingDealt(p, n, us[..|us| - 1]);
    }
  }

  lemma {:induction false} NothingAtAll(xs: seq<Allocation>, n: nat)
    requires Total(xs) == 0
    ensures DealAll(xs, 0, n).groups == [] && DealAll(xs, 0, n).amount == 0
  {
    if xs != [] {
      var init, a := xs[..|xs| - 1], xs[|xs| - 1];
      NothingAtAll(init, n);
      NothingDealt(DealAll(init, 0, n).(last := Empty(a)), n, a.unlockSchedule);
    }
  }

  lemma {:induction false} EqualGroups(gs: seq<seq<Allocation>>, w: nat)
    requires forall g | g in gs :: Total(g) == w
    ensures GroupTotal(gs) == |gs| * w
  {
    if gs != [] {
      EqualGroups(gs[..|gs| - 1], w);
      assert gs[|gs| - 1] in gs;
      OneMoreTimes(|gs|, w);
    }
  }

  lemma OneMoreTimes(n: nat, w: nat)
    requires n > 0
    ensures n * w == (n - 1) * w + w
  {
  }

  // Everything but the last group being full determines the number of groups.
  lemma GroupCount(total: nat, n: nat, w: nat, groups: nat, rest: nat)
    requires n > 0 && w == total / n && groups < n && total == groups * w + rest && (groups < n - 1 ==> rest <= w)
    ensures total > 0 ==> groups == n - 1
    ensures groups == n - 1 ==> rest == w + total % n
  {
    assert total == n * w + total % n;
    var missing := n - 1 - groups;
    assert n * w == groups * w + missing * w + w by {
      assert n == groups + missing + 1;
    }
    assert missing * w >= 0;
  }

  // ---------- Everybody's money ----------

  // Whose locked money, and until when.
  datatype Coin = Coin(ethAddr: Address, avaxAddr: Address, locktime: uint64)

  function Locked(a: Allocation, u: LockedAmount, c: Coin): nat {
    if c == Coin(a.ethAddr, a.avaxAddr, u.locktime) then u.amount else 0
  }

  function ScheduleAmount(a: Allocation, us: seq<LockedAmount>, c: Coin): nat {
    if us == [] then 0 else ScheduleAmount(a, us[..|us| - 1], c) + Locked(a, us[|us| - 1], c)
  }

  // How much of the allocations is for c.
  function Amount(xs: seq<Allocation>, c: Coin): nat {
    if xs == [] then 0 else Amount(xs[..|xs| - 1], c) + ScheduleAmount(xs[|xs| - 1], xs[|xs| - 1].unlockSchedule, c)
  }

  function GroupAmount(gs: seq<seq<Allocation>>, c: Coin): nat {
    if gs == [] then 0 else GroupAmount(gs[..|gs| - 1], c) + Amount(gs[|gs| - 1], c)
  }

  function Dealt(p: Progress, c: Coin): nat {
    GroupAmount(p.groups, c) + Amount(p.group, c) + ScheduleAmount(p.last, p.last.unlockSchedule, c)
  }

  lemma AmountAppend(xs: seq<Allocation>, a: Allocation, c: Coin)
    ensures Amount(xs + [a], c) == Amount(xs, c) + ScheduleAmount(a, a.unlockSchedule, c)
  {
    assert (xs + [a])[..|xs|] == xs;
  }

  lemma {:induction false} SameAddresses(a: Allocation, b: Allocation, us: seq<LockedAmount>, c: Coin)
    requires a.ethAddr == b.ethAddr && a.avaxAddr == b.avaxAddr
    ensures ScheduleAmount(a, us, c) == ScheduleAmount(b, us, c)
  {
    if us != [] {
      SameAddresses(a, b, us[..|us| - 1], c);
    }
  }

  lemma ExtendedAmount(a: Allocation, amount: nat, locktime: uint64, c: Coin)
    ensures var b := Extended(a, amount, locktime);
            ScheduleAmount(b, b.unlockSchedule, c) ==
                ScheduleAmount(a, a.unlockSchedule, c) + Locked(a, LockedAmount(amount, locktime), c)
  {
    var b := Extended(a, amount, locktime);
    SameAddresses(a, b, b.unlockSchedule, c);
    assert b.unlockSchedule[..|a.unlockSchedule|] == a.unlockSchedule;
  }

  lemma ClosedAmount(p: Progress, add: nat, locktime: uint64, c: Coin)
    ensures Dealt(Closed(p, add, locktime), c) == Dealt(p, c) + Locked(p.last, LockedAmount(add, locktime), c)
  {
    ExtendedAmount(p.last, add, locktime, c);
    AmountAppend(p.group, Extended(p.last, add, locktime), c);
    assert Closed(p, add, locktime).groups[..|p.groups|] == p.groups;
  }

  lemma {:induction false} DealAmount(p: Progress, w: nat, n: nat, left: nat, locktime: uint64, c: Coin)
    requires Fits(p, w, n)
    ensures Dealt(Deal(p, w, n, left, locktime), c) == Dealt(p, c) + Locked(p.last, LockedAmount(left, locktime), c)
    decreases n - |p.groups|
  {
    if p.amount + left > w && |p.groups| < n - 1 {
      var add := w - p.amount;
      ClosedAmount(p, add, locktime, c);
      DealAmount(Closed(p, add, locktime), w, n, left - add, locktime, c);
    } else {
      ExtendedAmount(p.last, left, locktime, c);
    }
  }

  lemma {:induction false} DealUnlocksAmount(p: Progress, w: nat, n: nat, us: seq<LockedAmount>, c: Coin)
    requires Fits(p, w, n)
    ensures Dealt(DealUnlocks(p, w, n, us), c) == Dealt(p, c) + ScheduleAmount(p.last, us, c)
  {
    if us != [] {
      var init, u := us[..|us| - 1], us[|us| - 1];
      DealUnlocksAmount(p, w, n, init, c);
      DealAmount(DealUnlocks(p, w, n, init), w, n, u.amount, u.locktime, c);
    }
  }

  lemma JoinedAmount(p: Progress, c: Coin)
    ensures Dealt(Joined(p), c) == Dealt(p, c)
  {
    AmountAppend(p.group, p.last, c);
  }

  // No unit is lost, made up or given to somebody else.
  lemma {:induction false} DealAllAmount(xs: seq<Allocation>, w: nat, n: nat, c: Coin)
    ensures Dealt(DealAll(xs, w, n), c) == Amount(xs, c)
  {
    if xs != [] {
      var init, a := xs[..|xs| - 1], xs[|xs| - 1];
      DealAllAmount(init, w, n, c);
      var p := DealAll(init, w, n).(last := Empty(a));
      DealUnlocksAmount(p, w, n, a.unlockSchedule, c);
      SameAddresses(Empty(a), a, a.unlockSchedule, c);
      JoinedAmount(DealUnlocks(p, w, n, a.unlockSchedule), c);
    }
  }

  // ---------- splitAllocations ----------

  // What the groups of a split are: equal shares and the remainder in the last one, of everybody's money.
  ghost predicate FairSplit(allocations: seq<Allocation>, n: nat, groups: seq<seq<Allocation>>)
    requires n > 0
  {
    var total := Total(allocations);
    && |groups| == (if total > 0 then n else 1)
    && (forall i | 0 <= i < |groups| - 1 :: Total(groups[i]) == total / n)
    && Total(groups[|groups| - 1]) == (if total > 0 then total / n + total % n else 0)
    && (forall c {:trigger GroupAmount(groups, c)} :: GroupAmount(groups, c) == Amount(allocations, c))
    && (forall i | 0 <= i < |groups| :: Zeroed(groups[i]))
  }

  lemma SplitIsFair(allocations: seq<Allocation>, n: nat)
    requires n > 0
    ensures var p := DealAll(allocations, Total(allocations) / n, n); FairSplit(allocations, n, p.groups + [p.group])
  {
    var total := Total(allocations);
    var w := total / n;
    var p := DealAll(allocations, w, n);
    DealAllBalanced(allocations, w, n);
    EqualGroups(p.groups, w);
    GroupCount(total, n, w, |p.groups|, p.amount);
    if total == 0 {
      NothingAtAll(allocations, n);
    }
    LastGroup(p, w, n, total);
    forall c
      ensures GroupAmount(p.groups + [p.group], c) == Amount(allocations, c)
    {
      DealAllAmount(allocations, w, n, c);
      assert (p.groups + [p.group])[..|p.groups|] == p.groups;
    }
  }

  lemma LastGroup(p: Progress, w: nat, n: nat, total: nat)
    requires Balanced(p, w, n, total) && p.last.unlockSchedule == []
    ensures var groups := p.groups + [p.group];
            && Total(groups[|groups| - 1]) == p.amount
            && forall i | 0 <= i < |groups| :: Zeroed(groups[i]) && (i < |groups| - 1 ==> Total(groups[i]) == w)
  {
    var groups := p.groups + [p.group];
    forall i | 0 <= i < |groups|
      ensures Zeroed(groups[i]) && (i < |groups| - 1 ==> Total(groups[i]) == w)
    {
      assert i < |p.groups| ==> groups[i] in p.groups;
    }
  }

  method TotalAmount(allocations: seq<Allocation>) returns (total: nat)
    requires Total(allocations) <= MAX_UINT64
    ensures total == Total(allocations)
  {
    total := 0;
    for i := 0 to |allocations|
      invariant total == Total(allocations[..i])
    {
      var us := allocations[i].unlockSchedule;
      OneMoreAllocation(allocations, i);
      for j := 0 to |us|
        invariant total == Total(allocations[..i]) + ScheduleTotal(us[..j])
      {
        OneMoreUnlock(us, j);
        total := total + us[j].amount;
        assert total <= MAX_UINT64;
      }
      assert us[..|us|] == us;
    }
    assert allocations[..|allocations|] == allocations;
  }

  method DealUnlock(p: Progress, w: nat, n: nat, unlock: LockedAmount) returns (q: Progress)
    requires Fits(p, w, n)
    ensures q == Deal(p, w, n, unlock.amount, unlock.locktime)
  {
    q := p;
    var left: nat := unlock.amount;
    while q.amount + left > w && |q.groups| < n - 1
      invariant Fits(q, w, n) && Deal(q, w, n, left, unlock.locktime) == Deal(p, w, n, unlock.amount, unlock.locktime)
      decreases n - |q.groups|
    {
      var amountToAdd := w - q.amount;
      q, left := Closed(q, amountToAdd, unlock.locktime), left - amountToAdd;
    }
    if left != 0 {
      q := Added(q, left, unlock.locktime);
    }
  }

  // With no stakers there is a division by zero.
  method SplitAllocations(allocations: seq<Allocation>, numSplits: nat) returns (r: Option<seq<seq<Allocation>>>)
    requires Total(allocations) <= MAX_UINT64
    ensures r.Some? <==> numSplits > 0
    ensures r.Some? ==> FairSplit(allocations, numSplits, r.value)
  {
    if numSplits == 0 {
      return None;
    }
    var totalAmount := TotalAmount(allocations);
    var nodeWeight := totalAmount / numSplits;
    var p := START;
    for i := 0 to |allocations|
      invariant p == DealAll(allocations[..i], nodeWeight, numSplits)
    {
      assert allocations[..i + 1][..i] == allocations[..i];
      var us := allocations[i].unlockSchedule;
      ghost var before := p.(last := Empty(allocations[i]));
      p := p.(last := Empty(allocations[i]));
      for j := 0 to |us|
        invariant p == DealUnlocks(before, nodeWeight, numSplits, us[..j])
      {
        assert us[..j + 1][..j] == us[..j];
        p := DealUnlock(p, nodeWeight, numSplits, us[j]);
      }
      assert us[..|us|] == us;
      p := p.(group := if |p.last.unlockSchedule| > 0 then p.group + [p.last] else p.group, last := Empty(p.last));
    }
    assert allocations[..|allocations|] == allocations;
    SplitIsFair(allocations, numSplits);
    return Some(p.groups + [p.group]);
  }
}
