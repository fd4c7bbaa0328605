/** Card badges: membership of a card's number, upper-cased, in two fixed
    sets of card numbers. */
module CardMeta {
  import opened Wrappers
  import opened Strings
  import opened Catalogue

  const SemiTranscendentNumbers: set<string> := {"PR-107"}

  /** The listed numbers are upper-cased when the set is built. */
  const TranscendentNumbers: set<string> :=
    set n | n in ["BP01-022", "AP(06/20) BP01-022", "BP01-026"] :: Upper(n)

  /** `card.number?.toUpperCase()`. */
  function NormalizeNumber(card: Card): Option<string>
  {
    if card.number.Some? then Some(Upper(card.number.value)) else None
  }

  predicate IsSemiTranscendent(card: Card)
  {
    var num := if card.number.Some? then Some(Upper(card.number.value)) else None;
    num.Some? && num.value != "" && num.value in SemiTranscendentNumbers
  }

  predicate IsTranscendent(card: Card)
  {
    var num := NormalizeNumber(card);
    num.Some? && num.value != "" && num.value in TranscendentNumbers
  }

  /** Upper-casing leaves a string without lower-case ASCII letters as it is. */
  lemma UpperOfUpper(s: string)
    requires forall i :: 0 <= i < |s| ==> !IsAsciiLower(s[i])
    ensures Upper(s) == s
  {
  }

  /** The transcendent set holds exactly the three listed numbers, which are
      already upper case. */
  lemma TranscendentNumbersAreLiterals()
    ensures TranscendentNumbers == {"BP01-022", "AP(06/20) BP01-022", "BP01-026"}
  {
    UpperOfUpper("BP01-022");
    UpperOfUpper("AP(06/20) BP01-022");
    UpperOfUpper("BP01-026");
  }

  /** A card is semi-transcendent exactly when it has a number whose
      upper-cased form is "PR-107". */
  lemma SemiTranscendentIff(card: Card)
    ensures IsSemiTranscendent(card) <==>
      card.number.Some? && Upper(card.number.value) == "PR-107"
  {
  }

  /** A card is transcendent exactly when it has a number whose upper-cased
      form is one of the three listed numbers. */
  lemma TranscendentIff(card: Card)
    ensures IsTranscendent(card) <==>
      card.number.Some? &&
      Upper(card.number.value) in {"BP01-022", "AP(06/20) BP01-022", "BP01-026"}
  {
    TranscendentNumbersAreLiterals();
  }

  /** Both predicates ignore the case of the number. */
  lemma CaseInsensitive(card: Card, number: string)
    requires card.number == Some(number)
    ensures IsSemiTranscendent(card) == IsSemiTranscendent(card.(number := Some(Lower(number))))
    ensures IsSemiTranscendent(card) == IsSemiTranscendent(card.(number := Some(Upper(number))))
    ensures IsTranscendent(card) == IsTranscendent(card.(number := Some(Lower(number))))
    ensures IsTranscendent(card) == IsTranscendent(card.(number := Some(Upper(number))))
  {
    UpperForgetsCase(number);
  }

  /** A missing or empty number yields false for both predicates. */
  lemma NoNumberNoBadge(card: Card)
    requires card.number.None? || card.number == Some("")
    ensures !IsSemiTranscendent(card) && !IsTranscendent(card)
  {
  }

  /** No card carries both badges: the two sets are disjoint. */
  lemma BadgesExclusive(card: Card)
    ensures !(IsSemiTranscendent(card) && IsTranscendent(card))
  {
    TranscendentNumbersAreLiterals();
  }
}
