/** Keeping the first occurrence of every non-empty string: the `seen` map idiom of all services. */
module FirstSeen {

  /** The non-empty strings among the first `n`, each once, in the order in which they first occur. */
  function DistinctTo(xs: seq<string>, n: nat): (r: seq<string>)
    requires n <= |xs|
    ensures |r| <= n
  {
    if n == 0 then [] else Add(DistinctTo(xs, n - 1), xs[n - 1])
  }

  function Distinct(xs: seq<string>): (r: seq<string>)
    ensures |r| <= |xs|
  {
    DistinctTo(xs, |xs|)
  }

  function Add(kept: seq<string>, x: string): seq<string> {
    if x == "" || x in kept then kept else kept + [x]
  }

  predicate NoRepeats(xs: seq<string>) {
    forall i, j :: 0 <= i < j < |xs| ==> xs[i] != xs[j]
  }

  lemma {:induction false} DistinctToElements(xs: seq<string>, n: nat)
    requires n <= |xs|
    ensures NoRepeats(DistinctTo(xs, n))
    ensures forall x :: x in DistinctTo(xs, n) <==> x != "" && x in xs[..n]
  {
    if n > 0 {
      DistinctToElements(xs, n - 1);
      assert xs[..n] == xs[..n - 1] + [xs[n - 1]];
    }
  }

  lemma DistinctElements(xs: seq<string>)
    ensures NoRepeats(Distinct(xs))
    ensures forall x :: x in Distinct(xs) <==> x in xs && x != ""
  {
    DistinctToElements(xs, |xs|);
    assert xs[..|xs|] == xs;
  }

  /** Only the first `n` strings matter. */
  lemma {:induction false} DistinctToFrame(xs: seq<string>, ys: seq<string>, n: nat)
    requires n <= |xs| && n <= |ys| && forall i :: 0 <= i < n ==> xs[i] == ys[i]
    ensures DistinctTo(xs, n) == DistinctTo(ys, n)
  {
    if n > 0 {
      DistinctToFrame(xs, ys, n - 1);
    }
  }

  lemma {:induction false} DistinctToGrows(xs: seq<string>, m: nat, n: nat)
    requires m <= n <= |xs|
    ensures DistinctTo(xs, m) <= DistinctTo(xs, n)
  {
    if m < n {
      DistinctToGrows(xs, m, n - 1);
      assert DistinctTo(xs, n - 1) <= DistinctTo(xs, n);
    }
  }

  /** A longer input only ever appends. */
  lemma DistinctPrefix(xs: seq<string>, ys: seq<string>)
    ensures Distinct(xs) <= Distinct(xs + ys)
  {
    DistinctToFrame(xs, xs + ys, |xs|);
    DistinctToGrows(xs + ys, |xs|, |xs + ys|);
  }

  lemma DistinctSnoc(xs: seq<string>, x: string)
    ensures Distinct(xs + [x]) == Add(Distinct(xs), x)
  {
    DistinctToFrame(xs, xs + [x], |xs|);
  }

  /** Wherever the later of two kept strings occurs, the earlier one has occurred before. */
  lemma {:induction false} DistinctToFollows(xs: seq<string>, n: nat, i: nat, j: nat, q: nat) returns (p: nat)
    requires n <= |xs| && i < j < |DistinctTo(xs, n)| && q < n && xs[q] == DistinctTo(xs, n)[j]
    ensures p < q && xs[p] == DistinctTo(xs, n)[i]
  {
    var before := DistinctTo(xs, n - 1);
    assert q < n - 1 ==> xs[q] in xs[..n - 1];
    DistinctToElements(xs, n - 1);
    if j < |before| {
      assert before[j] in before;
      var r := FindIndex(xs, n - 1, before[j]);
      p := DistinctToFollows(xs, n - 1, i, j, if q < n - 1 then q else r);
    } else {
      assert before[i] in before;
      p := FindIndex(xs, n - 1, before[i]);
    }
  }

  lemma FindIndex(xs: seq<string>, n: nat, x: string) returns (p: nat)
    requires n <= |xs| && x in xs[..n]
    ensures p < n && xs[p] == x
  {
    p :| p < n && xs[p] == x;
  }

  lemma {:induction false} DistinctToFixed(xs: seq<string>, n: nat)
    requires n <= |xs| && NoRepeats(xs) && "" !in xs
    ensures DistinctTo(xs, n) == xs[..n]
  {
    if n > 0 {
      DistinctToFixed(xs, n - 1);
    }
  }

  lemma DistinctFixed(xs: seq<string>)
    requires NoRepeats(xs) && "" !in xs
    ensures Distinct(xs) == xs
  {
    DistinctToFixed(xs, |xs|);
  }
}
