/** The tracker's per-set view: the catalogue grouped by set label, the
    groups ordered by label, each with its own owned count. */
module TrackerGroups {
  import opened Sequences
  import opened Catalogue
  import opened Tracker
  import opened Grouping

  /** `grouped`: the catalogue grouped by set label, the sets in label order
      (`le` is `localeCompare <= 0`). */
  method Grouped(cards: seq<Card>, le: (string, string) -> bool) returns (groups: seq<Group<Card>>)
    ensures groups == GroupBy(cards, SetLabel, le)
  {
    groups := GroupWithMap(cards, SetLabel, le);
  }

  /** The per-set "owned / total" chips: for each group, how many of its
      cards the ledger marks as owned, and how many cards it has. */
  function SetChips(groups: seq<Group<Card>>, owned: Owned): (chips: seq<(nat, nat)>)
    ensures |chips| == |groups|
    ensures forall j :: 0 <= j < |groups| ==>
      chips[j].0 <= chips[j].1 == |groups[j].members|
  {
    seq(|groups|, j requires 0 <= j < |groups| =>
      (OwnedInSet(groups[j].members, owned), |groups[j].members|))
  }

  /** The per-set owned numbers add up to the page's "Owned: n" count, and the
      per-set totals to the catalogue size: every card is counted in exactly
      one set. */
  lemma GroupedOwnedTotal(cards: seq<Card>, le: (string, string) -> bool, owned: Owned)
    ensures CountAcross(GroupBy(cards, SetLabel, le), OwnedBy(owned)) == OwnedCount(cards, owned)
    ensures CountAcross(GroupBy(cards, SetLabel, le), (c: Card) => true) == |cards|
  {
    GroupByCount(cards, SetLabel, le, OwnedBy(owned));
    OwnedCountIsOwnedCards(cards, owned);
    GroupByCount(cards, SetLabel, le, (c: Card) => true);
    FilterAllOrNone(cards, (c: Card) => true);
  }

  /** Each group is the set of one label, non-empty, its cards in catalogue
      order; labels do not repeat, and every card appears under its own
      label. */
  lemma GroupedPartition(cards: seq<Card>, le: (string, string) -> bool)
    ensures forall g :: g in GroupBy(cards, SetLabel, le) ==>
      |g.members| > 0 && g.members == Bucket(cards, SetLabel, g.title) &&
      forall c :: c in g.members <==> c in cards && SetLabel(c) == g.title
    ensures forall i, j :: 0 <= i < j < |GroupBy(cards, SetLabel, le)| ==>
      GroupBy(cards, SetLabel, le)[i].title != GroupBy(cards, SetLabel, le)[j].title
    ensures forall c :: c in cards ==>
      exists g :: g in GroupBy(cards, SetLabel, le) && g.title == SetLabel(c) && c in g.members
  {
    GroupsAreBuckets(cards, SetLabel, le);
    GroupTitlesDistinct(cards, SetLabel, le);
    EveryElementGrouped(cards, SetLabel, le);
  }

  /** With a consistent `localeCompare`, the sets are listed in label order. */
  lemma GroupedSorted(cards: seq<Card>, le: (string, string) -> bool)
    requires Total(le) && Transitive(le)
    ensures forall i, j :: 0 <= i < j < |GroupBy(cards, SetLabel, le)| ==>
      le(GroupBy(cards, SetLabel, le)[i].title, GroupBy(cards, SetLabel, le)[j].title)
  {
    GroupsSorted(cards, SetLabel, le);
  }
}
