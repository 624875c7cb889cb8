/** Applying a user's reactions to a feed page (`applyUserReactions`). */
module Personalization {
  import opened Contracts
  import Text
  import Selections

  predicate HidesFeedItem(kind: string) {
    kind == SKIP || kind == DISLIKE
  }

  function ReactionPriority(kind: string): int {
    if kind == SKIP || kind == DISLIKE then 3 else if kind == SAVE then 2 else if kind == LIKE then 1 else 0
  }

  /** `a` replaces `b` as the reaction to show. */
  predicate Overrides(a: UserReaction, b: UserReaction) {
    || ReactionPriority(a.kind) > ReactionPriority(b.kind)
    || (ReactionPriority(a.kind) == ReactionPriority(b.kind) && a.createdAt > b.createdAt)
  }

  /** Reaction `k` is the first of the maximal reactions to its article. */
  ghost predicate IsTop(reactions: seq<UserReaction>, k: nat) {
    && k < |reactions|
    && (forall j :: k < j < |reactions| && reactions[j].articleID == reactions[k].articleID ==>
          !Overrides(reactions[j], reactions[k]))
    && (forall j :: 0 <= j < k && reactions[j].articleID == reactions[k].articleID ==>
          Overrides(reactions[k], reactions[j]))
  }

  ghost predicate TopFor(reactions: seq<UserReaction>, articleID: string, top: UserReaction) {
    exists k: nat :: IsTop(reactions, k) && reactions[k] == top && top.articleID == articleID
  }

  ghost predicate Reacted(reactions: seq<UserReaction>, articleID: string) {
    !Text.IsBlank(articleID) && exists i :: 0 <= i < |reactions| && reactions[i].articleID == articleID
  }

  ghost predicate ReactedWith(reactions: seq<UserReaction>, articleID: string, kind: string) {
    && !Text.IsBlank(articleID)
    && exists i :: 0 <= i < |reactions| && reactions[i].articleID == articleID && reactions[i].kind == kind
  }

  /** The map holds exactly the articles with reactions, each with its first maximal one. */
  ghost predicate IsLatest(byArticle: map<string, UserReaction>, reactions: seq<UserReaction>) {
    && (forall id :: id in byArticle <==> Reacted(reactions, id))
    && (forall id :: id in byArticle ==> TopFor(reactions, id, byArticle[id]))
  }

  function Updated(byArticle: map<string, UserReaction>, reaction: UserReaction): map<string, UserReaction> {
    if Text.IsBlank(reaction.articleID) then byArticle
    else if reaction.articleID !in byArticle || Overrides(reaction, byArticle[reaction.articleID])
    then byArticle[reaction.articleID := reaction]
    else byArticle
  }

  lemma UpdatedIsLatest(byArticle: map<string, UserReaction>, reactions: seq<UserReaction>, i: nat)
    requires i < |reactions| && IsLatest(byArticle, reactions[..i])
    ensures IsLatest(Updated(byArticle, reactions[i]), reactions[..i + 1])
  {
    var next := Updated(byArticle, reactions[i]);
    forall id ensures id in next <==> Reacted(reactions[..i + 1], id) {
      ReactedSnoc(reactions, i, id);
    }
    forall id | id in next ensures TopFor(reactions[..i + 1], id, next[id]) {
      if id in byArticle {
        assert Reacted(reactions[..i], id);
        TopSnoc(reactions, i, byArticle[id]);
      } else {
        FirstIsTop(reactions, i);
      }
    }
  }

  method LatestReactionsByArticle(reactions: seq<UserReaction>) returns (byArticle: map<string, UserReaction>)
    ensures IsLatest(byArticle, reactions)
  {
    var latest: map<string, UserReaction> := map[];
    for i := 0 to |reactions|
      invariant IsLatest(latest, reactions[..i])
    {
      latest := Update(latest, reactions, i);
    }
    assert reactions[..|reactions|] == reactions;
    return latest;
  }

  /** One iteration of the loop over the reactions. */
  method Update(byArticle: map<string, UserReaction>, reactions: seq<UserReaction>, i: nat)
    returns (latest: map<string, UserReaction>)
    requires i < |reactions| && IsLatest(byArticle, reactions[..i])
    ensures IsLatest(latest, reactions[..i + 1])
  {
    UpdatedIsLatest(byArticle, reactions, i);
    var reaction := reactions[i];
    if Text.TrimSpace(reaction.articleID) == "" {
      return byArticle;
    }
    if reaction.articleID !in byArticle || Overrides(reaction, byArticle[reaction.articleID]) {
      return byArticle[reaction.articleID := reaction];
    }
    return byArticle;
  }

  lemma ReactedSnoc(reactions: seq<UserReaction>, i: nat, id: string)
    requires i < |reactions|
    ensures Reacted(reactions[..i + 1], id) <==>
            Reacted(reactions[..i], id) || (!Text.IsBlank(id) && reactions[i].articleID == id)
  {
    assert reactions[..i + 1] == reactions[..i] + [reactions[i]];
    if Reacted(reactions[..i], id) {
      var k :| 0 <= k < i && reactions[..i][k].articleID == id;
      assert reactions[..i + 1][k].articleID == id;
    }
    if reactions[i].articleID == id {
      assert reactions[..i + 1][i].articleID == id;
    }
  }

  lemma FirstIsTop(reactions: seq<UserReaction>, i: nat)
    requires i < |reactions| && !Text.IsBlank(reactions[i].articleID) &&
             !Reacted(reactions[..i], reactions[i].articleID)
    ensures TopFor(reactions[..i + 1], reactions[i].articleID, reactions[i])
  {
    forall j | 0 <= j < i ensures reactions[j].articleID != reactions[i].articleID {
      assert reactions[..i][j] == reactions[j];
    }
    assert IsTop(reactions[..i + 1], i);
  }

  lemma TopSnoc(reactions: seq<UserReaction>, i: nat, top: UserReaction)
    requires i < |reactions|
    ensures var next :=
              if reactions[i].articleID == top.articleID && Overrides(reactions[i], top) then reactions[i] else top;
            TopFor(reactions[..i], top.articleID, top) ==> TopFor(reactions[..i + 1], top.articleID, next)
  {
    if TopFor(reactions[..i], top.articleID, top) {
      var k: nat :| IsTop(reactions[..i], k) && reactions[..i][k] == top;
      var longer := reactions[..i + 1];
      assert forall j :: 0 <= j < i ==> longer[j] == reactions[..i][j];
      if reactions[i].articleID == top.articleID && Overrides(reactions[i], top) {
        assert IsTop(longer, i);
      } else {
        assert IsTop(longer, k);
      }
    }
  }

  /** The items that none of whose reactions hides them, in their order. */
  ghost function Survivors(items: seq<FeedItem>, reactions: seq<UserReaction>): (r: seq<FeedItem>) {
    if |items| == 0 then [] else
      var front, last := Survivors(items[..|items| - 1], reactions), items[|items| - 1];
      if Hidden(reactions, last.articleID) then front else front + [last]
  }

  ghost predicate Hidden(reactions: seq<UserReaction>, articleID: string) {
    ReactedWith(reactions, articleID, SKIP) || ReactedWith(reactions, articleID, DISLIKE)
  }

  /** `shown` is `item` with the reaction to show: the first maximal one, and saved exactly if some reaction is a
      save. */
  ghost predicate ShownAs(reactions: seq<UserReaction>, item: FeedItem, shown: FeedItem) {
    if Reacted(reactions, item.articleID) then
      && shown == item.(reaction := shown.reaction, saved := shown.saved)
      && (exists top :: TopFor(reactions, item.articleID, top) && shown.reaction == top.kind)
      && (shown.saved <==> ReactedWith(reactions, item.articleID, SAVE))
    else shown == item
  }

  lemma OverridesByPriority(a: UserReaction, b: UserReaction)
    ensures Overrides(a, b) ==> ReactionPriority(b.kind) <= ReactionPriority(a.kind)
    ensures !Overrides(a, b) ==> ReactionPriority(a.kind) <= ReactionPriority(b.kind)
  {
  }

  /** No reaction to the article has a higher priority than the top one. */
  lemma TopIsHighest(reactions: seq<UserReaction>, articleID: string, top: UserReaction, kind: string)
    requires TopFor(reactions, articleID, top)
    ensures ReactedWith(reactions, articleID, kind) ==> ReactionPriority(kind) <= ReactionPriority(top.kind)
  {
    var k: nat :| IsTop(reactions, k) && reactions[k] == top;
    if i :| 0 <= i < |reactions| && reactions[i].articleID == articleID && reactions[i].kind == kind {
      OverridesByPriority(reactions[k], reactions[i]);
      OverridesByPriority(reactions[i], reactions[k]);
    }
  }

  lemma TopIsReaction(reactions: seq<UserReaction>, articleID: string, top: UserReaction)
    requires !Text.IsBlank(articleID) && TopFor(reactions, articleID, top)
    ensures ReactedWith(reactions, articleID, top.kind)
  {
    var k: nat :| IsTop(reactions, k) && reactions[k] == top;
    assert reactions[k].articleID == articleID;
  }

  /** The maximal reaction hides exactly if some reaction does, and else is a save exactly if some reaction is. */
  lemma TopDecides(reactions: seq<UserReaction>, articleID: string, top: UserReaction)
    requires !Text.IsBlank(articleID) && TopFor(reactions, articleID, top)
    ensures HidesFeedItem(top.kind) <==> Hidden(reactions, articleID)
    ensures !HidesFeedItem(top.kind) ==> (top.kind == SAVE <==> ReactedWith(reactions, articleID, SAVE))
  {
    TopIsReaction(reactions, articleID, top);
    PrioritiesSeparate(top.kind);
    forall kind | kind in [SKIP, DISLIKE, SAVE] && ReactedWith(reactions, articleID, kind)
      ensures ReactionPriority(kind) <= ReactionPriority(top.kind)
    {
      TopIsHighest(reactions, articleID, top, kind);
    }
    PrioritiesSeparate(SAVE);
  }

  lemma PrioritiesSeparate(kind: string)
    ensures ReactionPriority(kind) == 3 <==> HidesFeedItem(kind)
    ensures ReactionPriority(kind) == 2 <==> kind == SAVE
  {
    assert SAVE[1] == 'a' && SKIP[1] == 'k' && DISLIKE[1] == 'i';
  }

  method ApplyUserReactions(items: seq<FeedItem>, reactions: seq<UserReaction>) returns (result: seq<FeedItem>)
    ensures var survivors := Survivors(items, reactions);
            && |result| == |survivors|
            && forall i :: 0 <= i < |result| ==> ShownAs(reactions, survivors[i], result[i])
  {
    var byArticle := LatestReactionsByArticle(reactions);
    result := [];
    for i := 0 to |items|
      invariant |result| == |Survivors(items[..i], reactions)|
      invariant forall k :: 0 <= k < |result| ==> ShownAs(reactions, Survivors(items[..i], reactions)[k], result[k])
    {
      assert items[..i + 1][..i] == items[..i];
      var item := items[i];
      if item.articleID in byArticle {
        var reaction := byArticle[item.articleID];
        TopDecides(reactions, item.articleID, reaction);
        if HidesFeedItem(reaction.kind) {
          continue;
        }
        var shown := item.(reaction := reaction.kind, saved := reaction.kind == SAVE);
        assert ShownAs(reactions, item, shown);
        result := result + [shown];
      } else {
        assert ShownAs(reactions, item, item);
        result := result + [item];
      }
    }
    assert items[..|items|] == items;
  }

  // ----- In kinds and times -----

  /** Hiding outranks saving, saving outranks liking, and liking outranks everything else. */
  predicate Outranks(a: string, b: string) {
    || (a in {SKIP, DISLIKE} && b !in {SKIP, DISLIKE})
    || (a == SAVE && b !in {SKIP, DISLIKE, SAVE})
    || (a == LIKE && b !in {SKIP, DISLIKE, SAVE, LIKE})
  }

  lemma OutranksIsPriority(a: string, b: string)
    ensures Outranks(a, b) <==> ReactionPriority(a) > ReactionPriority(b)
  {
    assert SAVE[1] == 'a' && SKIP[1] == 'k' && DISLIKE[1] == 'i' && LIKE[1] == 'i' && |LIKE| < |DISLIKE|;
  }

  /** Reaction `k` is preferred to reaction `j`: it outranks it, or neither outranks the other and it is later, or it
      was made at the same time and is listed earlier. */
  predicate Preferred(reactions: seq<UserReaction>, k: nat, j: nat)
    requires k < |reactions| && j < |reactions|
  {
    var a, b := reactions[k], reactions[j];
    || Outranks(a.kind, b.kind)
    || (!Outranks(b.kind, a.kind) && (a.createdAt > b.createdAt || (a.createdAt == b.createdAt && k < j)))
  }

  lemma TopIsPreferred(reactions: seq<UserReaction>, k: nat, j: nat)
    requires IsTop(reactions, k) && j < |reactions| && j != k && reactions[j].articleID == reactions[k].articleID
    ensures Preferred(reactions, k, j)
  {
    OutranksIsPriority(reactions[k].kind, reactions[j].kind);
    OutranksIsPriority(reactions[j].kind, reactions[k].kind);
  }

  /** An item with reactions shows the one of them that is preferred to all others, and counts as saved if any of them
      is a save. */
  lemma ShownReaction(reactions: seq<UserReaction>, item: FeedItem, shown: FeedItem) returns (k: nat)
    requires ShownAs(reactions, item, shown) && Reacted(reactions, item.articleID)
    ensures k < |reactions| && reactions[k].articleID == item.articleID
    ensures forall j: nat :: j < |reactions| && j != k && reactions[j].articleID == item.articleID ==>
              Preferred(reactions, k, j)
    ensures shown == item.(reaction := reactions[k].kind, saved := shown.saved)
    ensures shown.saved <==>
            exists j :: 0 <= j < |reactions| && reactions[j].articleID == item.articleID && reactions[j].kind == SAVE
  {
    var top :| TopFor(reactions, item.articleID, top) && shown.reaction == top.kind;
    k :| IsTop(reactions, k) && reactions[k] == top;
    forall j: nat | j < |reactions| && j != k && reactions[j].articleID == item.articleID
      ensures Preferred(reactions, k, j)
    {
      TopIsPreferred(reactions, k, j);
    }
  }

  /** None of the reactions to the article of item `i` skips or dislikes it. */
  ghost function IsVisible(items: seq<FeedItem>, reactions: seq<UserReaction>): nat -> bool {
    (i: nat) => i < |items| && !Hidden(reactions, items[i].articleID)
  }

  lemma {:induction false} SurvivorsAt(items: seq<FeedItem>, reactions: seq<UserReaction>, n: nat)
    requires n <= |items|
    ensures Selections.Picks(items, Selections.Below(n, IsVisible(items, reactions)), Survivors(items[..n], reactions))
  {
    if n > 0 {
      SurvivorsAt(items, reactions, n - 1);
      assert items[..n][..n - 1] == items[..n - 1];
    }
  }

  /** The items shown are, in their order, those that no reaction skips or dislikes; reactions to a blank identifier do
      not count. */
  lemma SurvivorsAre(items: seq<FeedItem>, reactions: seq<UserReaction>) returns (at: seq<nat>)
    ensures Selections.Ascending(at)
    ensures forall i: nat :: i in at <==>
              && i < |items|
              && (Text.IsBlank(items[i].articleID) ||
                  forall j :: 0 <= j < |reactions| && reactions[j].articleID == items[i].articleID ==>
                                reactions[j].kind !in {SKIP, DISLIKE})
    ensures Selections.Picks(items, at, Survivors(items, reactions))
  {
    at := Selections.Below(|items|, IsVisible(items, reactions));
    Selections.BelowSelects(|items|, IsVisible(items, reactions));
    SurvivorsAt(items, reactions, |items|);
    assert items[..|items|] == items;
  }
}
