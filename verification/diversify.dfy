/**
 * The rule by which `diversifyRankedItems` breaks up runs of one source, on slots: a slot is an item's
 * normalized source and score together with the rank it had before, and whether it has been promoted.
 */
module Diversify {

  datatype Slot = Slot(source: string, score: real, rank: nat, promoted: bool)

  /** The two slots carry the same, non-blank source. */
  predicate Clash(a: Slot, b: Slot) {
    a.source != "" && a.source == b.source
  }

  /** `c` may be moved ahead of `blocked`: another known source, at most five points below. */
  predicate Eligible(c: Slot, blocked: Slot) {
    c.source != "" && c.source != blocked.source && c.score + 5.0 >= blocked.score
  }

  /** The first position from `from` on that may be moved ahead of `blocked`, or the length. */
  function Replacement(slots: seq<Slot>, blocked: Slot, from: nat): (c: nat)
    requires from <= |slots|
    ensures from <= c <= |slots|
    ensures c < |slots| ==> Eligible(slots[c], blocked)
    ensures forall k :: from <= k < c ==> !Eligible(slots[k], blocked)
    decreases |slots| - from
  {
    if from == |slots| || Eligible(slots[from], blocked) then from else Replacement(slots, blocked, from + 1)
  }

  /** Position `c` moves up to `index`; everything between moves down by one. */
  function Promote(slots: seq<Slot>, index: nat, c: nat): (r: seq<Slot>)
    requires index < c < |slots|
    ensures |r| == |slots|
  {
    slots[..index] + [slots[c].(promoted := true)] + slots[index..c] + slots[c + 1..]
  }

  function Step(slots: seq<Slot>, index: nat): (r: seq<Slot>)
    requires 1 <= index < |slots|
    ensures |r| == |slots|
  {
    if !Clash(slots[index - 1], slots[index]) then slots
    else
      var c := Replacement(slots, slots[index], index + 1);
      if c == |slots| then slots else Promote(slots, index, c)
  }

  function DiversifyFrom(slots: seq<Slot>, index: nat): (r: seq<Slot>)
    requires 1 <= index
    ensures |r| == |slots|
    decreases |slots| - index
  {
    if index >= |slots| then slots else DiversifyFrom(Step(slots, index), index + 1)
  }

  ghost predicate Fresh(slots: seq<Slot>) {
    forall i :: 0 <= i < |slots| ==> slots[i].rank == i && !slots[i].promoted
  }

  // ----- What every step keeps -----

  /** Each slot is the slot of its rank in the original list, up to the promotion mark. */
  ghost predicate Holds(slots: seq<Slot>, original: seq<Slot>) {
    && |slots| == |original|
    && forall i :: 0 <= i < |slots| ==> HoldsAt(slots[i], original)
  }

  ghost predicate HoldsAt(slot: Slot, original: seq<Slot>) {
    slot.rank < |original| && slot.(promoted := false) == original[slot.rank]
  }

  ghost predicate RanksDistinct(slots: seq<Slot>) {
    forall i, j :: 0 <= i < j < |slots| ==> slots[i].rank != slots[j].rank
  }

  /** The positions from `index` on are an untouched subsequence of the original list. */
  ghost predicate TailInOrder(slots: seq<Slot>, index: nat) {
    && (forall i, j :: index <= i < j < |slots| ==> slots[i].rank < slots[j].rank)
    && (forall i :: index <= i < |slots| ==> !slots[i].promoted)
  }

  /** Of what follows the next slot, and of slot `i`, slot `i` is the first in the original list that may be ahead of
      the next one. */
  ghost predicate FirstEligible(slots: seq<Slot>, i: nat)
    requires i + 1 < |slots|
  {
    && Eligible(slots[i], slots[i + 1])
    && forall j :: i + 1 < j < |slots| && slots[j].rank < slots[i].rank ==> !Eligible(slots[j], slots[i + 1])
  }

  /** A promoted slot stands between two that clash. It is eligible to be ahead of the second one, which is unpromoted
      and of smaller rank, and nothing that preceded it in the original list is. Any other slot has only larger ranks
      after it. */
  ghost predicate Explained(slots: seq<Slot>, i: nat)
    requires i < |slots|
  {
    if slots[i].promoted then
      && 0 < i && i + 1 < |slots|
      && slots[i + 1].rank < slots[i].rank
      && !slots[i + 1].promoted
      && Clash(slots[i - 1], slots[i + 1])
      && FirstEligible(slots, i)
    else
      forall j :: i < j < |slots| ==> slots[i].rank < slots[j].rank
  }

  /** If position `i` clashes with the one before, nothing further down is eligible to come between. */
  ghost predicate Settled(slots: seq<Slot>, i: nat)
    requires i < |slots|
  {
    0 < i && Clash(slots[i - 1], slots[i]) ==> forall j :: i < j < |slots| ==> !Eligible(slots[j], slots[i])
  }

  ghost predicate HeadDone(slots: seq<Slot>, index: nat) {
    && (forall i: nat :: i < index && i < |slots| ==> Explained(slots, i))
    && (forall i: nat :: i < index && i < |slots| ==> Settled(slots, i))
  }

  ghost predicate Invariant(slots: seq<Slot>, original: seq<Slot>, index: nat) {
    Holds(slots, original) && RanksDistinct(slots) && TailInOrder(slots, index) && HeadDone(slots, index)
  }

  /** The position from which a promotion to `index` fills position `j`. */
  ghost function Origin(index: nat, c: nat, j: nat): nat {
    if j == index then c else if index < j <= c then j - 1 else j
  }

  lemma PromoteOrigin(slots: seq<Slot>, index: nat, c: nat, j: nat)
    requires index < c < |slots| && j < |slots|
    ensures Promote(slots, index, c)[j] ==
            if j == index then slots[c].(promoted := true) else slots[Origin(index, c, j)]
  {
  }

  lemma PromoteKeepsShape(slots: seq<Slot>, original: seq<Slot>, index: nat, c: nat)
    requires index < c < |slots|
    requires Holds(slots, original) && RanksDistinct(slots) && TailInOrder(slots, index)
    ensures var r := Promote(slots, index, c);
            Holds(r, original) && RanksDistinct(r) && TailInOrder(r, index + 1)
  {
    var r := Promote(slots, index, c);
    forall i: nat | i < |r| ensures HoldsAt(r[i], original) {
      PromoteOrigin(slots, index, c, i);
      assert HoldsAt(slots[Origin(index, c, i)], original);
    }
    forall i: nat, j: nat | i < j < |r|
      ensures r[i].rank != r[j].rank
      ensures index < i ==> r[i].rank < r[j].rank
    {
      PromoteOrigin(slots, index, c, i);
      PromoteOrigin(slots, index, c, j);
    }
    forall i: nat | index < i < |r| ensures !r[i].promoted {
      PromoteOrigin(slots, index, c, i);
    }
  }

  /** A position of the head is not affected by a promotion further down. */
  lemma PromoteKeepsHead(slots: seq<Slot>, index: nat, c: nat, i: nat)
    requires i < index < c < |slots|
    requires Explained(slots, i) && Settled(slots, i)
    requires i + 1 == index ==> !slots[i].promoted
    ensures Explained(Promote(slots, index, c), i) && Settled(Promote(slots, index, c), i)
  {
    var r := Promote(slots, index, c);
    forall j: nat | i < j < |r|
      ensures !r[i].promoted ==> r[i].rank < r[j].rank
      ensures 0 < i && Clash(r[i - 1], r[i]) ==> !Eligible(r[j], r[i])
    {
      PromoteOrigin(slots, index, c, j);
    }
  }

  /** Leaving position `index` as it is settles it. */
  lemma SkipKeeps(slots: seq<Slot>, original: seq<Slot>, index: nat)
    requires 1 <= index < |slots| && Invariant(slots, original, index)
    requires Settled(slots, index)
    ensures Invariant(slots, original, index + 1)
  {
    assert Explained(slots, index);
  }

  lemma PromotedIsExplained(slots: seq<Slot>, index: nat, c: nat)
    requires 1 <= index < c < |slots| && TailInOrder(slots, index)
    requires Clash(slots[index - 1], slots[index]) && c == Replacement(slots, slots[index], index + 1)
    ensures Explained(Promote(slots, index, c), index) && Settled(Promote(slots, index, c), index)
  {
    var next := Promote(slots, index, c);
    forall j: nat | index + 1 < j < |next| && next[j].rank < next[index].rank
      ensures !Eligible(next[j], next[index + 1])
    {
      PromoteOrigin(slots, index, c, j);
    }
  }

  lemma PromoteKeeps(slots: seq<Slot>, original: seq<Slot>, index: nat, c: nat)
    requires 1 <= index < c < |slots| && Invariant(slots, original, index)
    requires Clash(slots[index - 1], slots[index]) && c == Replacement(slots, slots[index], index + 1)
    ensures Invariant(Promote(slots, index, c), original, index + 1)
  {
    var next := Promote(slots, index, c);
    PromoteKeepsShape(slots, original, index, c);
    assert Explained(slots, index - 1);
    forall i: nat | i < index ensures Explained(next, i) && Settled(next, i) {
      PromoteKeepsHead(slots, index, c, i);
    }
    PromotedIsExplained(slots, index, c);
  }

  lemma StepKeeps(slots: seq<Slot>, original: seq<Slot>, index: nat)
    requires 1 <= index < |slots| && Invariant(slots, original, index)
    ensures Invariant(Step(slots, index), original, index + 1)
  {
    var c := Replacement(slots, slots[index], index + 1);
    if Clash(slots[index - 1], slots[index]) && c < |slots| {
      PromoteKeeps(slots, original, index, c);
    } else {
      SkipKeeps(slots, original, index);
    }
  }

  /** What the first position satisfies and every step carries on to the next position, the whole pass ends with. */
  lemma {:induction false} PassKeeps(slots: seq<Slot>, index: nat, keeps: (seq<Slot>, nat) -> bool)
    requires 1 <= index <= |slots| && keeps(slots, index)
    requires forall s, i: nat {:trigger Step(s, i)} :: 1 <= i < |s| && keeps(s, i) ==> keeps(Step(s, i), i + 1)
    ensures keeps(DiversifyFrom(slots, index), |slots|)
    decreases |slots| - index
  {
    if index < |slots| {
      PassKeeps(Step(slots, index), index + 1, keeps);
    }
  }

  lemma FreshInvariant(original: seq<Slot>)
    requires Fresh(original)
    ensures Invariant(original, original, 1)
  {
  }

  /** The invariant as a predicate of its own, for `PassKeeps`. */
  ghost function Keeping(original: seq<Slot>): (seq<Slot>, nat) -> bool {
    (slots: seq<Slot>, index: nat) => Invariant(slots, original, index)
  }

  /** The pass may go on from `slots` at `index`, and will end with `out`. */
  ghost function OnTheWay(original: seq<Slot>, out: seq<Slot>): (seq<Slot>, nat) -> bool {
    (slots: seq<Slot>, index: nat) =>
      1 <= index && Invariant(slots, original, index) && DiversifyFrom(slots, index) == out
  }

  lemma StartsOut(original: seq<Slot>)
    requires Fresh(original)
    ensures OnTheWay(original, DiversifyFrom(original, 1))(original, 1)
  {
    FreshInvariant(original);
  }

  lemma GoesOn(original: seq<Slot>, out: seq<Slot>, slots: seq<Slot>, index: nat)
    requires 1 <= index < |slots| && OnTheWay(original, out)(slots, index)
    ensures TailInOrder(slots, index) && OnTheWay(original, out)(Step(slots, index), index + 1)
  {
    StepKeeps(slots, original, index);
  }

  lemma Arrives(original: seq<Slot>, out: seq<Slot>, slots: seq<Slot>, index: nat)
    requires index >= |slots| && OnTheWay(original, out)(slots, index)
    ensures slots == out
  {
  }

  lemma StepsKeep(original: seq<Slot>, slots: seq<Slot>, index: nat)
    requires 1 <= index < |slots| && Keeping(original)(slots, index)
    ensures Keeping(original)(Step(slots, index), index + 1)
  {
    StepKeeps(slots, original, index);
  }

  lemma PassKeepsInvariant(original: seq<Slot>, keeps: (seq<Slot>, nat) -> bool)
    requires keeps == Keeping(original) && 1 <= |original| && keeps(original, 1)
    ensures keeps(DiversifyFrom(original, 1), |original|)
  {
    forall s: seq<Slot>, i: nat {:trigger Step(s, i)} | 1 <= i < |s| && keeps(s, i)
      ensures keeps(Step(s, i), i + 1)
    {
      StepsKeep(original, s, i);
    }
    PassKeeps(original, 1, keeps);
  }

  lemma FinalInvariant(original: seq<Slot>)
    requires Fresh(original)
    ensures Invariant(DiversifyFrom(original, 1), original, |original|)
  {
    FreshInvariant(original);
    if |original| > 0 {
      PassKeepsInvariant(original, Keeping(original));
    }
  }

  // ----- Properties of every list -----

  /** The result is a permutation of the list, and a slot was promoted exactly if it is now ahead of one that
      preceded it. */
  lemma IsPermutation(original: seq<Slot>)
    requires Fresh(original)
    ensures var out := DiversifyFrom(original, 1);
            && Holds(out, original)
            && RanksDistinct(out)
            && forall i :: 0 <= i < |out| ==>
                 (out[i].promoted <==> exists j :: i < j < |out| && out[j].rank < out[i].rank)
  {
    FinalInvariant(original);
    var out := DiversifyFrom(original, 1);
    forall i: nat | i < |out|
      ensures out[i].promoted <==> exists j :: i < j < |out| && out[j].rank < out[i].rank
    {
      assert Explained(out, i);
      if out[i].promoted {
        assert out[i + 1].rank < out[i].rank;
      }
    }
  }

  /** How many of the first `n` slots were not promoted. */
  ghost function Held(slots: seq<Slot>, n: nat): (h: nat)
    requires n <= |slots|
  {
    if n == 0 then 0 else Held(slots, n - 1) + if slots[n - 1].promoted then 0 else 1
  }

  /** Of two neighbouring positions at most one was filled by promotion, and never the first. */
  lemma {:induction false} HalfAreHeld(slots: seq<Slot>, n: nat)
    requires n <= |slots| && HeadDone(slots, |slots|)
    ensures 2 * Held(slots, n) >= n
    ensures n > 0 && !slots[n - 1].promoted ==> 2 * Held(slots, n) > n
  {
    if n > 0 {
      HalfAreHeld(slots, n - 1);
      assert Explained(slots, n - 1);
      if n > 1 {
        assert Explained(slots, n - 2);
      }
    }
  }

  lemma {:induction false} RankCoversHeld(slots: seq<Slot>, n: nat, q: nat)
    requires n <= q < |slots| && HeadDone(slots, |slots|)
    ensures slots[q].rank >= Held(slots, n)
  {
    if n > 0 {
      if slots[n - 1].promoted {
        RankCoversHeld(slots, n - 1, q);
      } else {
        RankCoversHeld(slots, n - 1, n - 1);
        assert Explained(slots, n - 1);
      }
    }
  }

  /** No slot falls from rank p to a position beyond 2p. */
  lemma DisplacementIsBounded(original: seq<Slot>, q: nat)
    requires Fresh(original) && q < |original|
    ensures q <= 2 * DiversifyFrom(original, 1)[q].rank
  {
    FinalInvariant(original);
    var out := DiversifyFrom(original, 1);
    HalfAreHeld(out, q);
    RankCoversHeld(out, q, q);
  }

  /** Neighbours share a source only where nothing below may come between them. */
  lemma IsMaximal(original: seq<Slot>, i: nat, j: nat)
    requires Fresh(original) && 0 < i < j < |original|
    ensures var out := DiversifyFrom(original, 1);
            Clash(out[i - 1], out[i]) ==> !Eligible(out[j], out[i])
  {
    FinalInvariant(original);
    assert Settled(DiversifyFrom(original, 1), i);
  }

  /** Slot `i` stands between two that clash. The second one has the smallest rank of all that follow, and slot `i` is
      the first of them that may be ahead of it. */
  ghost predicate Separates(slots: seq<Slot>, i: nat) {
    && 0 < i < |slots| - 1
    && Clash(slots[i - 1], slots[i + 1])
    && FirstEligible(slots, i)
    && forall j :: i <= j < |slots| ==> slots[i + 1].rank <= slots[j].rank
  }

  lemma ExplainedSeparates(slots: seq<Slot>, i: nat)
    requires HeadDone(slots, |slots|) && i < |slots| && slots[i].promoted
    ensures Separates(slots, i)
  {
    assert Explained(slots, i);
    assert Explained(slots, i + 1);
  }

  /** Every promoted slot separates two that clash. */
  lemma PromotedSeparates(original: seq<Slot>, i: nat)
    requires Fresh(original) && i < |original| && DiversifyFrom(original, 1)[i].promoted
    ensures Separates(DiversifyFrom(original, 1), i)
  {
    FinalInvariant(original);
    ExplainedSeparates(DiversifyFrom(original, 1), i);
  }

  /** A list in which every clash is settled is left as it is. */
  lemma {:induction false} SettledIsFixed(slots: seq<Slot>, index: nat)
    requires 1 <= index && forall i: nat :: i < |slots| ==> Settled(slots, i)
    ensures DiversifyFrom(slots, index) == slots
    decreases |slots| - index
  {
    if index < |slots| {
      assert Settled(slots, index);
      assert Step(slots, index) == slots;
      SettledIsFixed(slots, index + 1);
    }
  }

  // ----- Properties of lists sorted by score -----

  ghost predicate Descending(slots: seq<Slot>, index: nat) {
    forall i, j :: index <= i < j < |slots| ==> slots[i].score >= slots[j].score
  }

  /** No slot of the head is more than five points below anything that follows it. */
  ghost predicate InversionsBounded(slots: seq<Slot>, index: nat) {
    forall i, j :: 0 <= i < index && i < j < |slots| ==> slots[j].score <= slots[i].score + 5.0
  }

  /** Slots of one source, blank included, are in their original order. */
  ghost predicate SourcesStable(slots: seq<Slot>) {
    forall i, j :: 0 <= i < j < |slots| && slots[i].source == slots[j].source ==> slots[i].rank < slots[j].rank
  }

  /** The promoted slot is the first of its source in the tail: a better one would have been taken. */
  lemma PromotedIsFirstOfSource(slots: seq<Slot>, index: nat, c: nat, k: nat)
    requires index <= k < c < |slots| && Descending(slots, index) && c == Replacement(slots, slots[index], index + 1)
    ensures slots[k].source != slots[c].source
  {
    assert k > index ==> !Eligible(slots[k], slots[index]);
  }

  lemma PromoteKeepsScores(slots: seq<Slot>, index: nat, c: nat, i: nat, j: nat)
    requires index < c < |slots| && c == Replacement(slots, slots[index], index + 1)
    requires TailInOrder(slots, index) && Descending(slots, index)
    requires InversionsBounded(slots, index) && SourcesStable(slots)
    requires i < j < |slots|
    ensures var next := Promote(slots, index, c);
            && (index < i ==> next[i].score >= next[j].score)
            && (i <= index ==> next[j].score <= next[i].score + 5.0)
            && (next[i].source == next[j].source ==> next[i].rank < next[j].rank)
  {
    PromoteOrigin(slots, index, c, i);
    PromoteOrigin(slots, index, c, j);
    if i == index && j <= c {
      PromotedIsFirstOfSource(slots, index, c, j - 1);
    }
  }

  lemma StepKeepsScores(slots: seq<Slot>, index: nat)
    requires 1 <= index < |slots| && TailInOrder(slots, index) && Descending(slots, index)
    requires InversionsBounded(slots, index) && SourcesStable(slots)
    ensures var next := Step(slots, index);
            Descending(next, index + 1) && InversionsBounded(next, index + 1) && SourcesStable(next)
  {
    var c := Replacement(slots, slots[index], index + 1);
    if Clash(slots[index - 1], slots[index]) && c < |slots| {
      forall i: nat, j: nat | i < j < |slots|
        ensures var next := Promote(slots, index, c);
                && (index < i ==> next[i].score >= next[j].score)
                && (i <= index ==> next[j].score <= next[i].score + 5.0)
                && (next[i].source == next[j].source ==> next[i].rank < next[j].rank)
      {
        PromoteKeepsScores(slots, index, c, i, j);
      }
    }
  }

  ghost predicate ScoresKept(slots: seq<Slot>, index: nat) {
    Descending(slots, index) && InversionsBounded(slots, index) && SourcesStable(slots)
  }

  ghost function KeepingScores(original: seq<Slot>): (seq<Slot>, nat) -> bool {
    (slots: seq<Slot>, index: nat) => Invariant(slots, original, index) && ScoresKept(slots, index)
  }

  lemma StepsKeepScores(original: seq<Slot>, slots: seq<Slot>, index: nat)
    requires 1 <= index < |slots| && KeepingScores(original)(slots, index)
    ensures KeepingScores(original)(Step(slots, index), index + 1)
  {
    StepKeeps(slots, original, index);
    StepKeepsScores(slots, index);
  }

  lemma PassKeepsScores(original: seq<Slot>, keeps: (seq<Slot>, nat) -> bool)
    requires keeps == KeepingScores(original) && 1 <= |original| && keeps(original, 1)
    ensures keeps(DiversifyFrom(original, 1), |original|)
  {
    forall s: seq<Slot>, i: nat {:trigger Step(s, i)} | 1 <= i < |s| && keeps(s, i)
      ensures keeps(Step(s, i), i + 1)
    {
      StepsKeepScores(original, s, i);
    }
    PassKeeps(original, 1, keeps);
  }

  /** On a list sorted by score an inversion costs at most five points, and each source keeps its order. */
  lemma RespectsScores(original: seq<Slot>)
    requires Fresh(original) && Descending(original, 0)
    ensures var out := DiversifyFrom(original, 1);
            InversionsBounded(out, |out|) && SourcesStable(out)
  {
    FreshInvariant(original);
    if |original| > 0 {
      PassKeepsScores(original, KeepingScores(original));
    }
  }
}
