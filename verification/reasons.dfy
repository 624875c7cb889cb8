/** Score reasons and their compaction (`compactReasons`). */
module Reasons {
  import Text
  import FirstSeen

  /** Trimmed, non-empty reasons, each once, in first-seen order. */
  function Compacted(reasons: seq<string>): (r: seq<string>)
    ensures |r| <= |reasons|
  {
    FirstSeen.Distinct(Text.Trimmed(reasons))
  }

  method CompactReasons(reasons: seq<string>) returns (compacted: seq<string>)
    ensures compacted == Compacted(reasons)
  {
    ghost var trimmed := Text.Trimmed(reasons);
    var seen: set<string> := {};
    compacted := [];
    for i := 0 to |reasons|
      invariant compacted == FirstSeen.DistinctTo(trimmed, i)
      invariant forall x :: x in seen <==> x in compacted
    {
      var reason := Text.TrimSpace(reasons[i]);
      if reason == "" || reason in seen {
        continue;
      }
      seen := seen + {reason};
      compacted := compacted + [reason];
    }
  }

  /** `r` is what is left of some reason after trimming. */
  ghost predicate IsTrimOf(reasons: seq<string>, r: string) {
    exists i :: 0 <= i < |reasons| && Text.TrimSpace(reasons[i]) == r
  }

  /** Compaction keeps exactly the non-blank reasons, each once, and compacting twice changes nothing. */
  lemma CompactedReasons(reasons: seq<string>)
    ensures FirstSeen.NoRepeats(Compacted(reasons))
    ensures forall r :: r in Compacted(reasons) <==> r != "" && IsTrimOf(reasons, r)
    ensures Compacted(Compacted(reasons)) == Compacted(reasons)
  {
    var trimmed, compact := Text.Trimmed(reasons), Compacted(reasons);
    FirstSeen.DistinctElements(trimmed);
    forall r ensures r in trimmed <==> IsTrimOf(reasons, r) {
      if r in trimmed {
        var i :| 0 <= i < |trimmed| && trimmed[i] == r;
        assert Text.TrimSpace(reasons[i]) == r;
      }
      forall i | 0 <= i < |reasons| && Text.TrimSpace(reasons[i]) == r ensures r in trimmed {
        assert trimmed[i] == r;
      }
    }
    forall i | 0 <= i < |compact| ensures Text.Trimmed(compact)[i] == compact[i] {
      assert compact[i] in trimmed;
      var k :| 0 <= k < |reasons| && Text.TrimSpace(reasons[k]) == compact[i];
      Text.TrimIdempotent(reasons[k]);
    }
    assert Text.Trimmed(compact) == compact;
    FirstSeen.DistinctFixed(compact);
  }
}
