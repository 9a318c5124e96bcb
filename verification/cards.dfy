/**
 The card model of the dungeon game: a card is a suit and a value from 2 to 14
 (11 to 14 are the Jack, Queen, King and Ace), and its role in the game is
 decided by its suit alone. This module also builds the starting population of
 cards, shuffles it, and provides the two operations on card sequences that the
 rules need: counting monsters and removing every copy of a card.
 */
module Cards {

  datatype Suit = Spade | Club | Heart | Diamond

  /** Card values run from 2 to 14; the game never creates any other. */
  type Rank = v: int | 2 <= v <= 14 witness 2

  datatype Card = Card(suit: Suit, value: Rank)

  datatype Kind = MonsterCard | WeaponCard | PotionCard

  /** The role of a card: spades and clubs are monsters, diamonds weapons, hearts potions. */
  function KindOf(c: Card): (k: Kind)
    ensures k == MonsterCard <==> c.suit in {Spade, Club}
    ensures k == WeaponCard <==> c.suit == Diamond
    ensures k == PotionCard <==> c.suit == Heart
  {
    match c.suit
    case Spade => MonsterCard
    case Club => MonsterCard
    case Diamond => WeaponCard
    case Heart => PotionCard
  }

  predicate IsMonster(c: Card) {
    KindOf(c) == MonsterCard
  }

  /** No card occurs twice. */
  ghost predicate Distinct(s: seq<Card>) {
    forall c :: multiset(s)[c] <= 1
  }

  /** Fewer copies of each card keep a sequence duplicate-free. */
  lemma DistinctSubset(a: seq<Card>, b: seq<Card>)
    requires multiset(a) <= multiset(b) && Distinct(b)
    ensures Distinct(a)
  {
    forall c ensures multiset(a)[c] <= 1 {
      assert multiset(a)[c] <= multiset(b)[c];
    }
  }

  /* ---------------- Deck construction ---------------- */

  /** Whether the deck of the given mode holds this card: every spade and club,
      and hearts and diamonds only up to 10 unless easy mode is on. */
  predicate Dealt(c: Card, easy: bool) {
    c.suit == Spade || c.suit == Club || c.value <= 10 || easy
  }

  /** The cards the inner loop over the suits adds for one value, in the order
      spade, club, heart, diamond. */
  function Row(v: Rank, easy: bool): (r: seq<Card>)
    ensures forall c {:trigger c in r} :: c in r <==> c.value == v && Dealt(c, easy)
    ensures Distinct(r)
    ensures |r| == if v <= 10 || easy then 4 else 2
    ensures MonsterCount(r) == 2
  {
    var r := [Card(Spade, v), Card(Club, v)] + (if v <= 10 || easy then [Card(Heart, v), Card(Diamond, v)] else []);
    RowMembers(v, easy, r);
    RowDistinct(v, easy, r);
    RowMonsters(v, easy, r);
    r
  }

  /* The facts about the cards of one value, one per lemma so that each is proved
     on its own: together in one proof they are far more expensive. */

  lemma RowMembers(v: Rank, easy: bool, r: seq<Card>)
    requires r == [Card(Spade, v), Card(Club, v)]
      + (if v <= 10 || easy then [Card(Heart, v), Card(Diamond, v)] else [])
    ensures forall c {:trigger c in r} :: c in r <==> c.value == v && Dealt(c, easy)
  {
  }

  lemma RowDistinct(v: Rank, easy: bool, r: seq<Card>)
    requires r == [Card(Spade, v), Card(Club, v)]
      + (if v <= 10 || easy then [Card(Heart, v), Card(Diamond, v)] else [])
    ensures Distinct(r)
  {
  }

  lemma RowMonsters(v: Rank, easy: bool, r: seq<Card>)
    requires r == [Card(Spade, v), Card(Club, v)]
      + (if v <= 10 || easy then [Card(Heart, v), Card(Diamond, v)] else [])
    ensures MonsterCount(r) == 2
  {
  }

  /** The number of cards the deck holds with values v through 14. */
  function DealtCount(v: int, easy: bool): nat
    requires 2 <= v <= 15
  {
    if easy then 4 * (15 - v)
    else if v <= 11 then 4 * (11 - v) + 8
    else 2 * (15 - v)
  }

  /** The cards the outer loop adds for the values v through 14. */
  function DealFrom(v: int, easy: bool): (r: seq<Card>)
    requires 2 <= v <= 15
    ensures forall c {:trigger c in r} :: c in r <==> v <= c.value && Dealt(c, easy)
    ensures |r| == DealtCount(v, easy)
    decreases 15 - v
  {
    if v == 15 then [] else Row(v, easy) + DealFrom(v + 1, easy)
  }

  lemma {:induction false} DealFromDistinct(v: int, easy: bool)
    requires 2 <= v <= 15
    ensures Distinct(DealFrom(v, easy))
    decreases 15 - v
  {
    if v < 15 {
      DealFromDistinct(v + 1, easy);
      DistinctAppend(Row(v, easy), DealFrom(v + 1, easy), v);
    }
  }

  lemma {:induction false} DealFromMonsters(v: int, easy: bool)
    requires 2 <= v <= 15
    ensures MonsterCount(DealFrom(v, easy)) == 2 * (15 - v)
    decreases 15 - v
  {
    if v < 15 {
      DealFromMonsters(v + 1, easy);
      MonsterCountAppend(Row(v, easy), DealFrom(v + 1, easy));
    }
  }

  /** Two duplicate-free sequences whose values do not overlap concatenate to a
      duplicate-free one. */
  lemma DistinctAppend(a: seq<Card>, b: seq<Card>, v: int)
    requires Distinct(a) && Distinct(b)
    requires forall c :: c in a ==> c.value == v
    requires forall c :: c in b ==> c.value > v
    ensures Distinct(a + b)
  {
    forall c ensures multiset(a + b)[c] <= 1 {
      if c.value == v {
        assert c !in b;
      } else {
        assert c !in a;
      }
    }
  }

  /** The population of a new game: 44 cards in normal mode, 52 in easy mode,
      all distinct, 26 of them monsters. */
  function BuildDeck(easy: bool): (r: seq<Card>)
    ensures forall c {:trigger c in r} :: c in r <==> Dealt(c, easy)
    ensures Distinct(r)
    ensures |r| == if easy then 52 else 44
    ensures MonsterCount(r) == 26
  {
    DealFromDistinct(2, easy);
    DealFromMonsters(2, easy);
    DealFrom(2, easy)
  }

  /* ---------------- Shuffling ---------------- */

  /** Exchanges the cards at two positions. */
  function Swap(a: seq<Card>, i: nat, j: nat): (r: seq<Card>)
    requires i < |a| && j < |a|
    ensures |r| == |a|
    ensures multiset(r) == multiset(a)
    ensures r[i] == a[j] && r[j] == a[i]
    ensures forall k :: 0 <= k < |a| && k != i && k != j ==> r[k] == a[k]
  {
    a[i := a[j]][j := a[i]]
  }

  /** The Fisher-Yates passes for positions i down to 1. `draw(i)` is the random
      number drawn at position i; the position swapped with is draw(i) % (i + 1),
      which can be any position from 0 to i. */
  function ShuffleDown(a: seq<Card>, i: nat, draw: nat -> nat): (r: seq<Card>)
    requires i < |a|
    ensures multiset(r) == multiset(a)
    decreases i
  {
    if i == 0 then a
    else ShuffleDown(Swap(a, i, draw(i) % (i + 1)), i - 1, draw)
  }

  /** An in-place shuffle: whatever the random draws, the result is a permutation. */
  function Shuffle(a: seq<Card>, draw: nat -> nat): (r: seq<Card>)
    ensures multiset(r) == multiset(a)
    ensures |r| == |a|
  {
    var r := if |a| == 0 then a else ShuffleDown(a, |a| - 1, draw);
    assert |r| == |multiset(r)| == |multiset(a)| == |a|;
    r
  }

  /* ---------------- Card sequences ---------------- */

  /** The number of monster cards in a sequence. */
  function MonsterCount(s: seq<Card>): (n: nat)
    ensures n <= |s|
    ensures n == 0 <==> forall c :: c in s ==> !IsMonster(c)
  {
    if s == [] then 0
    else (if IsMonster(s[0]) then 1 else 0) + MonsterCount(s[1..])
  }

  lemma {:induction false} MonsterCountAppend(a: seq<Card>, b: seq<Card>)
    ensures MonsterCount(a + b) == MonsterCount(a) + MonsterCount(b)
  {
    if a == [] {
      assert a + b == b;
    } else {
      assert (a + b)[1..] == a[1..] + b;
      MonsterCountAppend(a[1..], b);
    }
  }

  /** The monster count depends only on which cards there are, not on their order. */
  lemma {:induction false} MonsterCountPermutation(a: seq<Card>, b: seq<Card>)
    requires multiset(a) == multiset(b)
    ensures MonsterCount(a) == MonsterCount(b)
    decreases |a|
  {
    if a == [] {
      assert |b| == |multiset(b)| == 0;
    } else {
      var x := a[0];
      assert x in multiset(b);
      var k :| 0 <= k < |b| && b[k] == x;
      var rest := b[..k] + b[k + 1..];
      assert b == b[..k] + [x] + b[k + 1..];
      assert a == [x] + a[1..];
      assert multiset(b) == multiset(b[..k]) + multiset{x} + multiset(b[k + 1..]);
      assert multiset(a) == multiset{x} + multiset(a[1..]);
      assert multiset(rest) == multiset(b[..k]) + multiset(b[k + 1..]);
      assert multiset(a[1..]) == multiset(a) - multiset{x};
      assert multiset(rest) == multiset(b) - multiset{x};
      MonsterCountPermutation(a[1..], rest);
      MonsterCountAppend(b[..k] + [x], b[k + 1..]);
      MonsterCountAppend(b[..k], [x]);
      MonsterCountAppend(b[..k], b[k + 1..]);
    }
  }

  /** Whether the cards of `a` occur in `b` in the same order, possibly with others between. */
  ghost predicate Subsequence(a: seq<Card>, b: seq<Card>)
    decreases |b|
  {
    a == [] || (b != [] && ((a[0] == b[0] && Subsequence(a[1..], b[1..])) || Subsequence(a, b[1..])))
  }

  /** Every card of `s` except those equal to `card` (same suit and value), in order. */
  function Without(s: seq<Card>, card: Card): (r: seq<Card>)
    ensures Subsequence(r, s)
    ensures multiset(r) == multiset(s)[card := 0]
    ensures |r| == |s| - multiset(s)[card]
    ensures MonsterCount(r) == MonsterCount(s) - (if IsMonster(card) then multiset(s)[card] else 0)
  {
    if s == [] then []
    else
      assert s == [s[0]] + s[1..];
      if s[0] == card then Without(s[1..], card)
      else [s[0]] + Without(s[1..], card)
  }
}
