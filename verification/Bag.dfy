/**
 ids/bag.go: a bag of votes with its size, its mode and the votes that have met a threshold, kept up to
 date as votes are added.
 */
module Bag {
  import opened Wrappers
  import opened Bits

  const EMPTY_ID: ID := seq(32, _ => 0)

  function Count<T(==)>(counts: map<T, int>, id: T): int {
    if id in counts then counts[id] else 0
  }

  // A multiset contained in another one of the same size is that one.
  lemma SameSize<T>(a: multiset<T>, b: multiset<T>)
    requires a <= b && |a| == |b|
    ensures a == b
  {
    assert b == a + (b - a);
    assert |b - a| == 0;
  }

  ghost predicate Counted<T(!new)>(counts: map<T, int>, votes: multiset<T>) {
    (forall id {:trigger votes[id]} :: votes[id] == Count(counts, id)) && (forall id | id in counts :: counts[id] > 0)
  }

  // The mode is a vote seen most often; a bag without votes has frequency 0.
  ghost predicate IsMode<T(!new)>(mode: T, modeFreq: int, votes: multiset<T>) {
    votes[mode] == modeFreq && forall id :: votes[id] <= modeFreq
  }

  ghost predicate Met<T(!new)>(met: set<T>, threshold: int, counts: map<T, int>) {
    forall id :: id in met <==> id in counts && counts[id] >= threshold
  }

  lemma ModeRaised<T(!new)>(votes: multiset<T>, mode: T, modeFreq: int, id: T, total: nat)
    requires IsMode(mode, modeFreq, votes) && total > votes[id]
    ensures IsMode(if total > modeFreq then id else mode, if total > modeFreq then total
                   else modeFreq, votes[id := total])
  {
  }

  lemma CountRaised<T(!new)>(counts: map<T, int>, votes: multiset<T>, id: T, total: nat)
    requires Counted(counts, votes) && total > votes[id]
    ensures Counted(counts[id := total], votes[id := total]) && |votes[id := total]| == |votes| + total - votes[id]
  {
    var votes', counts' := votes[id := total], counts[id := total];
    forall x {:trigger votes'[x]}
      ensures votes'[x] == Count(counts', x)
    {
      assert votes[x] == Count(counts, x);
    }
  }

  lemma MetRaised<T(!new)>(met: set<T>, threshold: int, counts: map<T, int>, id: T, total: int)
    requires Met(met, threshold, counts) && total > Count(counts, id)
    ensures Met(if total >= threshold then met + {id} else met, threshold, counts[id := total])
  {
  }

  lemma OneMoreVote<T>(votes: multiset<T>, ids: seq<T>, i: nat)
    requires i < |ids|
    ensures var before := votes + multiset(ids[..i]);
            votes + multiset(ids[..i + 1]) == before[ids[i] := before[ids[i]] + 1]
  {
    assert ids[..i + 1] == ids[..i] + [ids[i]];
  }

  class Bag<T(==, !new)> {
    var counts: map<T, int>
    var size: int
    var mode: T
    var modeFreq: int
    var threshold: int
    var metThreshold: set<T>

    // What has been added.
    ghost var votes: multiset<T>

    constructor (zero: T)
      ensures Valid() && votes == multiset{} && threshold == 0
    {
      counts, size, mode, modeFreq, threshold, metThreshold := map[], 0, zero, 0, 0, {};
      votes := multiset{};
    }

    ghost predicate Valid()
      reads this
    {
      Counted(counts, votes) && size == |votes| && IsMode(mode, modeFreq, votes) && Met(metThreshold, threshold, counts)
    }

    // The threshold set is exactly the votes seen at least threshold times.
    method SetThreshold(threshold: int)
      requires Valid()
      modifies `threshold, `metThreshold
      ensures Valid() && this.threshold == threshold
    {
      if this.threshold == threshold {
        return;
      }
      this.threshold := threshold;
      metThreshold := {};
      var left := counts.Keys;
      while left != {}
        modifies `metThreshold
        invariant left <= counts.Keys
        invariant forall id :: id in metThreshold <==> id in counts.Keys - left && counts[id] >= threshold
      {
        var vote :| vote in left;
        if counts[vote] >= threshold {
          metThreshold := metThreshold + {vote};
        }
        left := left - {vote};
      }
    }

    method AddCount(id: T, count: int)
      requires Valid()
      modifies this
      ensures Valid() && threshold == old(threshold)
      ensures votes == if count <= 0 then old(votes) else old(votes)[id := old(votes)[id] + count]
      ensures mode == if count > 0 && votes[id] > old(modeFreq) then id else old(mode)
    {
      if count <= 0 {
        return;
      }
      assert votes[id] == Count(counts, id);
      var totalCount := Count(counts, id) + count;
      CountRaised(counts, votes, id, totalCount);
      ModeRaised(votes, mode, modeFreq, id, totalCount);
      MetRaised(metThreshold, threshold, counts, id, totalCount);
      counts := counts[id := totalCount];
      size := size + count;
      votes := votes[id := totalCount];
      if totalCount > modeFreq {
        mode, modeFreq := id, totalCount;
      }
      if totalCount >= threshold {
        metThreshold := metThreshold + {id};
      }
    }

    method Add(ids: seq<T>)
      requires Valid()
      modifies this
      ensures Valid() && votes == old(votes) + multiset(ids)
    {
      assert ids[..0] == [];
      for i := 0 to |ids|
        invariant Valid() && votes == old(votes) + multiset(ids[..i])
      {
        OneMoreVote(old(votes), ids, i);
        AddCount(ids[i], 1);
      }
      assert ids[..|ids|] == ids;
    }

    // Comparing one bag's counts is enough to decide whether both hold the same votes.
    method Equals(other: Bag<T>) returns (r: bool)
      requires Valid() && other.Valid()
      ensures r <==> votes == other.votes
    {
      if size != other.size {
        return false;
      }
      var left := counts.Keys;
      while left != {}
        invariant left <= counts.Keys
        invariant forall id | id in counts.Keys - left :: counts[id] == Count(other.counts, id)
      {
        var key :| key in left;
        assert votes[key] == Count(counts, key) && other.votes[key] == Count(other.counts, key);
        if counts[key] != Count(other.counts, key) {
          return false;
        }
        left := left - {key};
      }
      forall id
        ensures votes[id] <= other.votes[id]
      {
        assert votes[id] == Count(counts, id) && other.votes[id] == Count(other.counts, id);
      }
      SameSize(votes, other.votes);
      return true;
    }
  }

  // ---------- IDs ----------

  // Whether a vote agrees with id on the range, as EqualSubset says.
  ghost predicate Matches(start: nat, end: int, id: ID, vote: ID) {
    end <= start || (end <= NUM_BITS && Agree(id, vote, start, end))
  }

  // The votes of b that agree with id on the range.
  method Filter(b: Bag<ID>, start: nat, end: int, id: ID) returns (newBag: Bag<ID>)
    requires b.Valid()
    ensures fresh(newBag) && newBag.Valid()
    ensures forall vote {:trigger newBag.votes[vote]} ::
              newBag.votes[vote] == if Matches(start, end, id, vote) then b.votes[vote] else 0
  {
    newBag := new Bag(EMPTY_ID);
    var left := b.counts.Keys;
    while left != {}
      modifies newBag
      invariant newBag.Valid() && left <= b.counts.Keys
      invariant PartFiltered(b.counts, left, start, end, id, newBag.votes)
    {
      var vote :| vote in left;
      var equal := EqualSubset(start, end, id, vote);
      FilterOne(b.counts, left, start, end, id, newBag.votes, vote);
      if equal {
        newBag.AddCount(vote, b.counts[vote]);
      }
      left := left - {vote};
    }
    AllFiltered(b.counts, start, end, id, newBag.votes, b.votes);
  }

  // Adds one vote with its count on its side.
  method Place(zeros: Bag<ID>, ones: Bag<ID>, counts: map<ID, int>, ghost left: set<ID>, index: nat, vote: ID)
    requires zeros != ones && zeros.Valid() && ones.Valid() && index < NUM_BITS
    requires vote in left && vote in counts && counts[vote] > 0 &&
             PartSplit(counts, left, index, zeros.votes, ones.votes)
    modifies zeros, ones
    ensures zeros.Valid() && ones.Valid() && PartSplit(counts, left - {vote}, index, zeros.votes, ones.votes)
  {
    SplitOne(counts, left, index, zeros.votes, ones.votes, vote);
    if BitAt(vote, index) {
      ones.AddCount(vote, counts[vote]);
    } else {
      zeros.AddCount(vote, counts[vote]);
    }
  }

  // The votes of b by their bit: together they are all the votes.
  method Split(b: Bag<ID>, index: nat) returns (zeros: Bag<ID>, ones: Bag<ID>)
    requires b.Valid() && index < NUM_BITS
    ensures fresh(zeros) && fresh(ones) && zeros.Valid() && ones.Valid()
    ensures zeros.votes + ones.votes == b.votes
    ensures (forall vote | vote in zeros.votes :: !BitAt(vote, index)) &&
            (forall vote | vote in ones.votes :: BitAt(vote, index))
  {
    zeros := new Bag(EMPTY_ID);
    ones := new Bag(EMPTY_ID);
    var left := b.counts.Keys;
    while left != {}
      modifies zeros, ones
      invariant zeros.Valid() && ones.Valid() && zeros != ones && left <= b.counts.Keys
      invariant PartSplit(b.counts, left, index, zeros.votes, ones.votes)
    {
      var vote :| vote in left;
      Place(zeros, ones, b.counts, left, index, vote);
      left := left - {vote};
    }
    AllSplit(b.counts, index, zeros.votes, ones.votes, b.votes);
  }

  // All matching votes but those left have been added.
  ghost predicate PartFiltered(counts: map<ID, int>, left: set<ID>, start: nat, end: int, id: ID, votes: multiset<ID>) {
    forall vote {:trigger votes[vote]} ::
        votes[vote] == if vote !in left && Matches(start, end, id, vote) then Count(counts, vote) else 0
  }

  lemma FilterOne(counts: map<ID, int>, left: set<ID>, start: nat, end: int, id: ID, votes: multiset<ID>, vote: ID)
    requires PartFiltered(counts, left, start, end, id, votes) && vote in left && vote in counts && counts[vote] > 0
    ensures votes[vote] == 0
    ensures PartFiltered(counts, left - {vote}, start, end, id, if Matches(start, end, id, vote) then
                         votes[vote := counts[vote]] else votes)
  {
  }

  lemma AllFiltered(counts: map<ID, int>, start: nat, end: int, id: ID, votes: multiset<ID>, all: multiset<ID>)
    requires PartFiltered(counts, {}, start, end, id, votes) && Counted(counts, all)
    ensures forall vote {:trigger votes[vote]} :: votes[vote] == if Matches(start, end, id, vote) then all[vote] else 0
  {
    forall vote {:trigger votes[vote]}
      ensures votes[vote] == if Matches(start, end, id, vote) then all[vote] else 0
    {
      assert all[vote] == Count(counts, vote);
    }
  }

  // All votes but those left have been put on their side.
  ghost predicate PartSplit(counts: map<ID, int>, left: set<ID>, index: nat, zeros: multiset<ID>, ones: multiset<ID>)
    requires index < NUM_BITS
  {
    forall vote {:trigger zeros[vote]} {:trigger ones[vote]} ::
      && zeros[vote] == (if vote !in left && !BitAt(vote, index) then Count(counts, vote) else 0)
      && ones[vote] == (if vote !in left && BitAt(vote, index) then Count(counts, vote) else 0)
  }

  lemma SplitOne(counts: map<ID, int>, left: set<ID>, index: nat, zeros: multiset<ID>, ones: multiset<ID>, vote: ID)
    requires index < NUM_BITS && PartSplit(counts, left, index, zeros, ones) && vote in left && vote in counts &&
             counts[vote] > 0
    ensures zeros[vote] == 0 && ones[vote] == 0
    ensures BitAt(vote, index) ==> PartSplit(counts, left - {vote}, index, zeros, ones[vote := counts[vote]])
    ensures !BitAt(vote, index) ==> PartSplit(counts, left - {vote}, index, zeros[vote := counts[vote]], ones)
  {
  }

  lemma AllSplit(counts: map<ID, int>, index: nat, zeros: multiset<ID>, ones: multiset<ID>, votes: multiset<ID>)
    requires index < NUM_BITS && PartSplit(counts, {}, index, zeros, ones)
    requires Counted(counts, votes)
    ensures zeros + ones == votes
    ensures (forall vote | vote in zeros :: !BitAt(vote, index)) && (forall vote | vote in ones :: BitAt(vote, index))
  {
    forall vote
      ensures (zeros + ones)[vote] == votes[vote]
    {
      assert zeros[vote] + ones[vote] == Count(counts, vote);
    }
  }
}
