/** The stats page: the per-character card counts it tallies from the card
    list, the "Characters" figure, and the distribution lists it renders. */
module Stats {
  import opened Wrappers
  import opened Sequences
  import opened Catalogue
  import opened Distribution

  /** A name that counts: truthy (non-empty) and not the "-" placeholder. */
  predicate IsValidName(name: string)
  {
    name != "" && name != "-"
  }

  predicate HasValidName(card: Card)
  {
    card.characterName.Some? && IsValidName(card.characterName.value)
  }

  /** `(acc[name] || 0)`: the count so far, 0 when absent. */
  function Get(acc: map<string, nat>, name: string): nat
  {
    if name in acc then acc[name] else 0
  }

  function NamedBy(name: string): Card -> bool
  {
    (c: Card) => c.characterName == Some(name)
  }

  /** How many cards carry exactly this character name. */
  function CountNamed(cards: seq<Card>, name: string): nat
  {
    |Filter(cards, NamedBy(name))|
  }

  /** The `reduce` of `characterDistribution`, from an accumulator: each card
      with a valid name adds one to its name's count. */
  function TallyFrom(cards: seq<Card>, acc: map<string, nat>): (tally: map<string, nat>)
    ensures forall name :: name in acc ==> name in tally && Get(tally, name) >= Get(acc, name)
    decreases |cards|
  {
    if |cards| == 0 then acc else TallyFrom(cards[1..], TallyStep(acc, cards[0]))
  }

  /** `characterDistribution`: `{}` without cards, otherwise the tally. */
  function CharacterDistribution(cards: seq<Card>): (dist: map<string, nat>)
    ensures |cards| == 0 ==> dist == map[]
  {
    if |cards| == 0 then map[] else TallyFrom(cards, map[])
  }

  /** The first card adds one to its own name's count. */
  lemma CountNamedCons(cards: seq<Card>, name: string)
    requires |cards| > 0
    ensures CountNamed(cards, name) ==
      (if cards[0].characterName == Some(name) then 1 else 0) + CountNamed(cards[1..], name)
  {
  }

  /** One step of the fold. */
  function TallyStep(acc: map<string, nat>, card: Card): (next: map<string, nat>)
    ensures forall name :: (Get(next, name) ==
      Get(acc, name) + (if HasValidName(card) && card.characterName.value == name then 1 else 0))
    ensures forall name :: name in next <==>
      name in acc || (HasValidName(card) && card.characterName.value == name)
  {
    if HasValidName(card) then acc[card.characterName.value := Get(acc, card.characterName.value) + 1]
    else acc
  }

  /** What the fold adds to its accumulator: the count of every valid name,
      and nothing under any other name. */
  lemma {:induction false} TallyFromCounts(cards: seq<Card>, acc: map<string, nat>)
    ensures forall name :: (Get(TallyFrom(cards, acc), name) ==
      Get(acc, name) + (if IsValidName(name) then CountNamed(cards, name) else 0))
    ensures forall name :: name in TallyFrom(cards, acc) <==>
      name in acc || (IsValidName(name) && CountNamed(cards, name) > 0)
    decreases |cards|
  {
    if |cards| > 0 {
      var next := TallyStep(acc, cards[0]);
      assert TallyFrom(cards, acc) == TallyFrom(cards[1..], next);
      TallyFromCounts(cards[1..], next);
      forall name
        ensures CountNamed(cards, name) ==
          (if cards[0].characterName == Some(name) then 1 else 0) + CountNamed(cards[1..], name)
      {
        CountNamedCons(cards, name);
      }
    }
  }

  /** The tally holds exactly the valid names of the cards, each with the
      number of cards carrying it. */
  lemma DistributionCounts(cards: seq<Card>)
    ensures forall name :: name in CharacterDistribution(cards) <==>
      exists c :: c in cards && HasValidName(c) && c.characterName.value == name
    ensures forall name :: name in CharacterDistribution(cards) ==>
      CharacterDistribution(cards)[name] == CountNamed(cards, name)
  {
    var dist := CharacterDistribution(cards);
    if |cards| > 0 {
      TallyFromCounts(cards, map[]);
    }
    forall name
      ensures name in dist <==> exists c :: c in cards && HasValidName(c) && c.characterName.value == name
    {
      if name in dist {
        var named := Filter(cards, NamedBy(name));
        assert named[0] in cards && NamedBy(name)(named[0]);
      }
      if exists c :: c in cards && HasValidName(c) && c.characterName.value == name {
        var c :| c in cards && HasValidName(c) && c.characterName.value == name;
        assert c in Filter(cards, NamedBy(name));
      }
    }
  }

  /** Cards with no name, an empty name or "-" leave the tally unchanged. */
  lemma InvalidNamesNotCounted(cards: seq<Card>, card: Card)
    requires !HasValidName(card)
    ensures CharacterDistribution(cards + [card]) == CharacterDistribution(cards)
  {
    TallyAppend(cards, [card], map[]);
    assert [card][1..] == [];
  }

  /** The fold over a concatenation is the fold over the second part from the
      fold over the first. */
  lemma {:induction false} TallyAppend(a: seq<Card>, b: seq<Card>, acc: map<string, nat>)
    ensures TallyFrom(a + b, acc) == TallyFrom(b, TallyFrom(a, acc))
    decreases |a|
  {
    if |a| > 0 {
      assert (a + b)[0] == a[0] && (a + b)[1..] == a[1..] + b;
      TallyAppend(a[1..], b, TallyStep(acc, a[0]));
    } else {
      assert a + b == b;
    }
  }

  /** The "Characters" figure: the number of distinct valid names. */
  function CharactersStat(cards: seq<Card>): (n: nat)
    ensures n == |set c | c in cards && HasValidName(c) :: c.characterName.value|
  {
    DistributionCounts(cards);
    var dist := CharacterDistribution(cards);
    assert dist.Keys == set c | c in cards && HasValidName(c) :: c.characterName.value;
    |dist.Keys|
  }

  // ---------------------------------------------------------------------------
  // The counts add up
  // ---------------------------------------------------------------------------

  ghost function Pick(names: set<string>): string
    requires names != {}
  {
    var name :| name in names; name
  }

  /** The sum of a tally's counts. */
  ghost function SumCounts(m: map<string, nat>): nat
    decreases |m.Keys|
  {
    if m.Keys == {} then 0
    else
      var name := Pick(m.Keys);
      m[name] + SumCounts(m - {name})
  }

  /** Any entry can be taken out first. */
  lemma {:induction false} SumCountsRemove(m: map<string, nat>, name: string)
    requires name in m
    ensures SumCounts(m) == m[name] + SumCounts(m - {name})
    decreases |m.Keys|
  {
    var first := Pick(m.Keys);
    if first != name {
      var rest := m - {first};
      assert |rest.Keys| < |m.Keys| by {
        assert rest.Keys == m.Keys - {first};
      }
      SumCountsRemove(rest, name);
      var both := rest - {name};
      assert m - {name} - {first} == both;
      assert |(m - {name}).Keys| < |m.Keys| by {
        assert (m - {name}).Keys == m.Keys - {name};
      }
      SumCountsRemove(m - {name}, first);
    }
  }

  /** Adding one to a name's count adds one to the sum. */
  lemma SumCountsIncrement(m: map<string, nat>, name: string)
    ensures SumCounts(m[name := Get(m, name) + 1]) == SumCounts(m) + 1
  {
    var next := m[name := Get(m, name) + 1];
    SumCountsRemove(next, name);
    assert next - {name} == m - {name};
    if name in m {
      SumCountsRemove(m, name);
    } else {
      assert m - {name} == m;
    }
  }

  lemma {:induction false} TallyFromSum(cards: seq<Card>, acc: map<string, nat>)
    ensures SumCounts(TallyFrom(cards, acc)) == SumCounts(acc) + |Filter(cards, HasValidName)|
    decreases |cards|
  {
    if |cards| > 0 {
      var next := TallyStep(acc, cards[0]);
      TallyStepSum(acc, cards[0]);
      TallyFromSum(cards[1..], next);
      assert TallyFrom(cards, acc) == TallyFrom(cards[1..], next);
      assert |Filter(cards, HasValidName)| ==
        (if HasValidName(cards[0]) then 1 else 0) + |Filter(cards[1..], HasValidName)|;
    }
  }

  /** One step of the fold adds one to the total exactly for a valid name. */
  lemma TallyStepSum(acc: map<string, nat>, card: Card)
    ensures SumCounts(TallyStep(acc, card)) == SumCounts(acc) + (if HasValidName(card) then 1 else 0)
  {
    if HasValidName(card) {
      SumCountsIncrement(acc, card.characterName.value);
    }
  }

  /** The counts add up to the number of cards with a valid name. */
  lemma DistributionSum(cards: seq<Card>)
    ensures SumCounts(CharacterDistribution(cards)) == |Filter(cards, HasValidName)|
  {
    TallyFromSum(cards, map[]);
  }

  // ---------------------------------------------------------------------------
  // DistributionList
  // ---------------------------------------------------------------------------

  /** What a distribution list shows: every entry as a row, largest value
      first, and the "No data available." line exactly when there are no
      entries. */
  datatype ListView = ListView(rows: seq<Entry>, noData: bool)

  function DistributionList(entries: seq<Entry>): (view: ListView)
    ensures multiset(view.rows) == multiset(entries)
    ensures forall i, j :: 0 <= i < j < |view.rows| ==> view.rows[i].1 >= view.rows[j].1
    ensures view.noData <==> |entries| == 0
  {
    ListView(ByValueDescending(entries), |entries| == 0)
  }

  /** The entries of a tally enumerated in some key order. */
  function TallyEntries(dist: map<string, nat>, keys: seq<string>): (entries: seq<Entry>)
    requires forall k :: k in keys ==> k in dist
    ensures |entries| == |keys|
    ensures forall i :: 0 <= i < |keys| ==> entries[i] == (keys[i], dist[keys[i]] as int)
  {
    seq(|keys|, i requires 0 <= i < |keys| => (keys[i], dist[keys[i]] as int))
  }

  /** The "By Character" list has one row per character, showing its card
      count, for any enumeration order of the tally's keys. */
  lemma CharacterListRows(cards: seq<Card>, keys: seq<string>)
    requires Distinct(keys)
    requires forall k :: k in keys <==> k in CharacterDistribution(cards)
    ensures forall name :: name in CharacterDistribution(cards) ==>
      multiset(DistributionList(TallyEntries(CharacterDistribution(cards), keys)).rows)
        [(name, CountNamed(cards, name) as int)] == 1
    ensures |DistributionList(TallyEntries(CharacterDistribution(cards), keys)).rows| ==
      |CharacterDistribution(cards).Keys|
  {
    var dist := CharacterDistribution(cards);
    var entries := TallyEntries(dist, keys);
    DistributionCounts(cards);
    forall name | name in dist
      ensures multiset(entries)[(name, CountNamed(cards, name) as int)] == 1
    {
      var i :| 0 <= i < |keys| && keys[i] == name;
      SingleOccurrence(entries, i);
    }
    DistinctKeysCount(keys, dist.Keys);
  }

  lemma {:induction false} DistinctKeysCount(keys: seq<string>, names: set<string>)
    requires Distinct(keys)
    requires forall k :: k in keys <==> k in names
    ensures |keys| == |names|
    decreases |keys|
  {
    if |keys| > 0 {
      var last := keys[|keys| - 1];
      var init := keys[..|keys| - 1];
      assert keys == init + [last];
      assert last !in init;
      DistinctKeysCount(init, names - {last});
    }
  }
}
