/**
 What holds in every session a game can reach: health stays within bounds, the
 unplayed cards are duplicate-free and hold exactly as many monsters as the
 counter says, the room is refilled before it runs low, the outcome agrees with
 health and the counter, and the weapon's durability is the value of the last
 monster in its chain. Every command keeps this, and across any sequence of
 commands no card is created or lost: the cards still in the deck or the room
 plus the cards played are the population the game started with.
 */
module Invariant {
  import opened Cards
  import opened Dungeon

  /** Monster values strictly decrease along the chain. */
  ghost predicate Descending(chain: seq<Card>) {
    forall i, j :: 0 <= i < j < |chain| ==> chain[i].value > chain[j].value
  }

  /** Without a weapon there is no chain; with one, the chain holds monsters of
      strictly decreasing value and the durability is the last one's value (full
      durability while the chain is empty). */
  ghost predicate WeaponAgrees(weapon: Option<Weapon>, chain: seq<Card>) {
    match weapon
    case None => chain == []
    case Some(w) =>
      && w.suit == Diamond
      && w.durability == (if chain == [] then MaxWeaponDurability else chain[|chain| - 1].value)
      && Descending(chain)
      && (forall c :: c in chain ==> IsMonster(c))
  }

  /** A game in progress has health and monsters left; a won game has no monsters
      left; a lost game has no health left; a finished game cannot run. */
  ghost predicate OutcomeAgrees(s: Session) {
    match s.outcome
    case Playing => s.health > 0 && s.remainingMonsters > 0
    case Won => s.health > 0 && s.remainingMonsters == 0 && !s.canRun
    case Lost => s.health == 0 && s.remainingMonsters > 0 && !s.canRun
  }

  /** The room holds at most four cards, and fewer than two only once the deck is empty. */
  ghost predicate RoomShape(s: Session) {
    |s.room| <= RoomSize && (|s.room| >= 2 || s.deck == [])
  }

  ghost predicate Inv(s: Session) {
    && 0 <= s.health <= MaxHealth
    && RoomShape(s)
    && Distinct(s.Unplayed())
    && s.remainingMonsters == MonsterCount(s.Unplayed())
    && OutcomeAgrees(s)
    && WeaponAgrees(s.weapon, s.chain)
  }

  /* ---------------- One command ---------------- */

  /** Playing a card of the room removes exactly that card from the unplayed cards
      and keeps the room's shape. */
  lemma PlayCardKeepsShape(s: Session, card: Card)
    requires !s.IsGameOver() && RoomShape(s) && Distinct(s.Unplayed()) && card in s.room
    ensures RoomShape(PlayCard(s, card))
    ensures multiset(PlayCard(s, card).Unplayed()) == multiset(s.Unplayed()) - multiset{card}
    ensures Distinct(PlayCard(s, card).Unplayed())
    ensures MonsterCount(PlayCard(s, card).Unplayed())
      == MonsterCount(s.Unplayed()) - (if IsMonster(card) then 1 else 0)
  {
    var r := PlayCard(s, card);
    var left := Without(s.room, card);
    assert r.Unplayed() == left + s.deck;
    OnlyCopy(s.room, s.deck, card);
    PlayCardShape(s, card);
    assert multiset(r.Unplayed()) == multiset(s.Unplayed()) - multiset{card} by {
      assert multiset(r.Unplayed()) == multiset(left) + multiset(s.deck);
      assert multiset(s.Unplayed()) == multiset(s.room) + multiset(s.deck);
    }
    DistinctSubset(r.Unplayed(), s.Unplayed());
    MonsterCountAppend(s.room, s.deck);
    MonsterCountAppend(left, s.deck);
  }

  lemma PlayCardShape(s: Session, card: Card)
    requires !s.IsGameOver() && RoomShape(s) && multiset(s.room)[card] == 1
    ensures RoomShape(PlayCard(s, card))
  {
    var left := Without(s.room, card);
    assert |left| == |s.room| - 1;
    if |left| == 0 {
      assert s.deck == [];
    }
  }

  /** A card of the room occurs once in the room and not at all in the deck when
      the unplayed cards are duplicate-free. */
  lemma OnlyCopy(room: seq<Card>, deck: seq<Card>, card: Card)
    requires Distinct(room + deck) && card in room
    ensures multiset(room)[card] == 1 && multiset(deck)[card] == 0
  {
    assert multiset(room + deck) == multiset(room) + multiset(deck);
    assert multiset(room + deck)[card] <= 1;
  }

  /** A chain that grows by a monster weaker than the weapon's durability stays
      in agreement with the weapon whose durability drops to that monster's value. */
  lemma ChainGrows(w: Weapon, chain: seq<Card>, card: Card)
    requires WeaponAgrees(Some(w), chain) && IsMonster(card) && card.value < w.durability
    ensures WeaponAgrees(Some(w.(durability := card.value)), chain + [card])
  {
    var longer := chain + [card];
    forall i, j | 0 <= i < j < |longer|
      ensures longer[i].value > longer[j].value
    {
      if j < |chain| {
        assert longer[i] == chain[i] && longer[j] == chain[j];
      } else {
        assert longer[i] == chain[i];
        if i < |chain| - 1 {
          assert chain[i].value > chain[|chain| - 1].value;
        }
      }
    }
  }

  /** Slaying a monster of the room, while the game is on and the player alive,
      keeps the invariant and plays exactly that card. */
  lemma SlayKeepsInv(t: Session, card: Card)
    requires !t.IsGameOver() && 0 < t.health <= MaxHealth
    requires RoomShape(t) && Distinct(t.Unplayed()) && card in t.room && IsMonster(card)
    requires 0 < t.remainingMonsters == MonsterCount(t.Unplayed())
    requires WeaponAgrees(t.weapon, t.chain)
    ensures Inv(Slay(t, card))
    ensures multiset(Slay(t, card).Unplayed()) == multiset(t.Unplayed()) - multiset{card}
  {
    var counted := t.(remainingMonsters := t.remainingMonsters - 1);
    var p := PlayCard(counted, card);
    PlayCardKeepsShape(counted, card);
    var n := Slay(t, card);
    assert n == CheckIfPlayerWon(p);
    assert n.room == p.room && n.deck == p.deck;
    assert n.health == t.health && n.weapon == t.weapon && n.chain == t.chain;
    assert n.remainingMonsters == MonsterCount(n.Unplayed());
    assert OutcomeAgrees(n);
  }

  lemma FightKeepsInv(s: Session, card: Card, barehanded: bool)
    requires Inv(s) && card in s.room
    requires Fight(s, card, barehanded).Accepted?
    ensures Inv(Fight(s, card, barehanded).next)
    ensures multiset(Fight(s, card, barehanded).next.Unplayed())
      == multiset(s.Unplayed()) - (if Lethal(s, card, barehanded) then multiset{} else multiset{card})
  {
    if Lethal(s, card, barehanded) {
      LethalKeepsInv(s, card, barehanded);
    } else if barehanded {
      var hurt := TakeDamage(s, card.value);
      assert Fight(s, card, barehanded) == Accepted(Slay(hurt, card));
      SlayKeepsInv(hurt, card);
    } else {
      ArmedKeepsInv(s, card);
    }
  }

  /** A lethal blow ends the game and leaves the cards where they were. */
  lemma LethalKeepsInv(s: Session, card: Card, barehanded: bool)
    requires Inv(s)
    requires Fight(s, card, barehanded).Accepted? && Lethal(s, card, barehanded)
    ensures Inv(Fight(s, card, barehanded).next)
    ensures Fight(s, card, barehanded).next.Unplayed() == s.Unplayed()
  {
    var r := Fight(s, card, barehanded).next;
    assert r == s.(health := 0, canRun := false, outcome := Lost);
  }

  lemma ArmedKeepsInv(s: Session, card: Card)
    requires Inv(s) && card in s.room
    requires Fight(s, card, false).Accepted? && !Lethal(s, card, false)
    ensures Inv(Fight(s, card, false).next)
    ensures multiset(Fight(s, card, false).next.Unplayed()) == multiset(s.Unplayed()) - multiset{card}
  {
    var w := s.weapon.value;
    var excess := card.value - w.value;
    var hurt := if excess > 0 then TakeDamage(s, excess) else s;
    var worn := hurt.(weapon := Some(w.(durability := card.value)), chain := hurt.chain + [card]);
    assert Fight(s, card, false) == Accepted(Slay(worn, card));
    ChainGrows(w, s.chain, card);
    SlayKeepsInv(worn, card);
  }

  lemma EquipKeepsInv(s: Session, card: Card)
    requires Inv(s) && card in s.room
    requires Equip(s, card).Accepted?
    ensures Inv(Equip(s, card).next)
    ensures multiset(Equip(s, card).next.Unplayed()) == multiset(s.Unplayed()) - multiset{card}
  {
    var armed := s.(weapon := Some(Weapon(card.suit, card.value, MaxWeaponDurability)), chain := []);
    assert Equip(s, card).next == PlayCard(armed, card);
    PlayCardKeepsShape(armed, card);
    assert !IsMonster(card);
  }

  lemma DrinkKeepsInv(s: Session, card: Card)
    requires Inv(s) && card in s.room
    requires Drink(s, card).Accepted?
    ensures Inv(Drink(s, card).next)
    ensures multiset(Drink(s, card).next.Unplayed()) == multiset(s.Unplayed()) - multiset{card}
  {
    var healed := s.(health := Min(MaxHealth, s.health + card.value), canDrinkPotion := false);
    assert Drink(s, card).next == PlayCard(healed, card);
    PlayCardKeepsShape(healed, card);
    assert !IsMonster(card);
  }

  lemma RunKeepsInv(s: Session)
    requires Inv(s)
    requires RunAway(s).Accepted?
    ensures Inv(RunAway(s).next)
  {
    MonsterCountPermutation(s.Unplayed(), RunAway(s).next.Unplayed());
  }

  /* ---------------- Sequences of commands ---------------- */

  /** The player can only pick cards that lie in the room. */
  predicate Legal(s: Session, cmd: Command) {
    cmd.Run? || cmd.card in s.room
  }

  /** The card a command plays: none when it is refused, when it is a run, or when
      it kills the player. */
  function Spent(s: Session, cmd: Command): multiset<Card> {
    match Apply(s, cmd)
    case Rejected(_) => multiset{}
    case Accepted(next) => if cmd.Run? || next.outcome == Lost then multiset{} else multiset{cmd.card}
  }

  lemma StepKeepsInv(s: Session, cmd: Command)
    requires Inv(s) && Legal(s, cmd)
    ensures Inv(Step(s, cmd))
    ensures multiset(Step(s, cmd).Unplayed()) + Spent(s, cmd) == multiset(s.Unplayed())
  {
    match cmd
    case FightMonster(card, barehanded) => FightStep(s, card, barehanded);
    case EquipWeapon(card) => EquipStep(s, card);
    case DrinkPotion(card) => DrinkStep(s, card);
    case Run => RunStep(s);
  }

  /** What a reply contributes to a step: the session it leads to, and the card it spends. */
  lemma StepFromReply(s: Session, cmd: Command, r: Reply, spent: multiset<Card>)
    requires Apply(s, cmd) == r && Inv(s)
    requires r.Accepted? ==> Inv(r.next) && multiset(r.next.Unplayed()) + spent == multiset(s.Unplayed())
    requires r.Accepted? ==> spent == if cmd.Run? || r.next.outcome == Lost then multiset{} else multiset{cmd.card}
    ensures Inv(Step(s, cmd))
    ensures multiset(Step(s, cmd).Unplayed()) + Spent(s, cmd) == multiset(s.Unplayed())
  {
  }

  lemma FightStep(s: Session, card: Card, barehanded: bool)
    requires Inv(s) && card in s.room
    ensures Inv(Step(s, FightMonster(card, barehanded)))
    ensures multiset(Step(s, FightMonster(card, barehanded)).Unplayed()) + Spent(s, FightMonster(card, barehanded))
      == multiset(s.Unplayed())
  {
    var r := Fight(s, card, barehanded);
    FightReply(s, card, barehanded);
    var spent := if r.Rejected? || r.next.outcome == Lost then multiset{} else multiset{card};
    StepFromReply(s, FightMonster(card, barehanded), r, spent);
  }

  lemma FightReply(s: Session, card: Card, barehanded: bool)
    requires Inv(s) && card in s.room
    ensures Fight(s, card, barehanded).Accepted? ==>
      var next := Fight(s, card, barehanded).next;
      && Inv(next)
      && multiset(next.Unplayed()) + (if next.outcome == Lost then multiset{} else multiset{card})
        == multiset(s.Unplayed())
  {
    if Fight(s, card, barehanded).Accepted? {
      FightKeepsInv(s, card, barehanded);
    }
  }

  lemma EquipStep(s: Session, card: Card)
    requires Inv(s) && card in s.room
    ensures Inv(Step(s, EquipWeapon(card)))
    ensures multiset(Step(s, EquipWeapon(card)).Unplayed()) + Spent(s, EquipWeapon(card)) == multiset(s.Unplayed())
  {
    EquipReply(s, card);
    StepFromReply(s, EquipWeapon(card), Equip(s, card), multiset{card});
  }

  lemma EquipReply(s: Session, card: Card)
    requires Inv(s) && card in s.room
    ensures Equip(s, card).Accepted? ==>
      && Inv(Equip(s, card).next)
      && multiset(Equip(s, card).next.Unplayed()) + multiset{card} == multiset(s.Unplayed())
      && Equip(s, card).next.outcome != Lost
  {
    if Equip(s, card).Accepted? {
      EquipKeepsInv(s, card);
    }
  }

  lemma DrinkStep(s: Session, card: Card)
    requires Inv(s) && card in s.room
    ensures Inv(Step(s, DrinkPotion(card)))
    ensures multiset(Step(s, DrinkPotion(card)).Unplayed()) + Spent(s, DrinkPotion(card)) == multiset(s.Unplayed())
  {
    DrinkReply(s, card);
    StepFromReply(s, DrinkPotion(card), Drink(s, card), multiset{card});
  }

  lemma DrinkReply(s: Session, card: Card)
    requires Inv(s) && card in s.room
    ensures Drink(s, card).Accepted? ==>
      && Inv(Drink(s, card).next)
      && multiset(Drink(s, card).next.Unplayed()) + multiset{card} == multiset(s.Unplayed())
      && Drink(s, card).next.outcome != Lost
  {
    if Drink(s, card).Accepted? {
      DrinkKeepsInv(s, card);
    }
  }

  lemma RunStep(s: Session)
    requires Inv(s)
    ensures Inv(Step(s, Run))
    ensures multiset(Step(s, Run).Unplayed()) + Spent(s, Run) == multiset(s.Unplayed())
  {
    if RunAway(s).Accepted? {
      RunKeepsInv(s);
    }
    StepFromReply(s, Run, RunAway(s), multiset{});
  }

  /** The session after playing the commands in order. */
  function Play(s: Session, cmds: seq<Command>): Session
    decreases |cmds|
  {
    if cmds == [] then s else Play(Step(s, cmds[0]), cmds[1..])
  }

  /** The cards the commands play, in the session they start from. */
  function SpentAll(s: Session, cmds: seq<Command>): multiset<Card>
    decreases |cmds|
  {
    if cmds == [] then multiset{} else Spent(s, cmds[0]) + SpentAll(Step(s, cmds[0]), cmds[1..])
  }

  /** Every command picks a card of the room it is issued in. */
  ghost predicate LegalRun(s: Session, cmds: seq<Command>)
    decreases |cmds|
  {
    cmds == [] || (Legal(s, cmds[0]) && LegalRun(Step(s, cmds[0]), cmds[1..]))
  }

  lemma {:induction false} PlayKeepsInv(s: Session, cmds: seq<Command>)
    requires Inv(s) && LegalRun(s, cmds)
    ensures Inv(Play(s, cmds))
    ensures multiset(Play(s, cmds).Unplayed()) + SpentAll(s, cmds) == multiset(s.Unplayed())
    decreases |cmds|
  {
    if cmds != [] {
      StepKeepsInv(s, cmds[0]);
      PlayKeepsInv(Step(s, cmds[0]), cmds[1..]);
    }
  }

  lemma InitializeGameEstablishesInv(easy: bool, draw: nat -> nat)
    ensures Inv(InitializeGame(easy, draw))
  {
    var s := InitializeGame(easy, draw);
    DistinctSubset(s.Unplayed(), BuildDeck(easy));
  }

  /** In every game reached from a new one by legal commands, the invariant holds
      and the unplayed cards together with the played ones are exactly the deck the
      game was built with. */
  lemma Conservation(easy: bool, draw: nat -> nat, cmds: seq<Command>)
    requires LegalRun(InitializeGame(easy, draw), cmds)
    ensures Inv(Play(InitializeGame(easy, draw), cmds))
    ensures multiset(Play(InitializeGame(easy, draw), cmds).Unplayed()) + SpentAll(InitializeGame(easy, draw), cmds)
      == multiset(BuildDeck(easy))
  {
    InitializeGameEstablishesInv(easy, draw);
    PlayKeepsInv(InitializeGame(easy, draw), cmds);
  }

  /** Once the game is over, no sequence of commands changes anything. */
  lemma {:induction false} GameOverIsFinal(s: Session, cmds: seq<Command>)
    requires s.IsGameOver() && !s.canRun
    ensures Play(s, cmds) == s
    decreases |cmds|
  {
    if cmds != [] {
      assert Step(s, cmds[0]) == s;
      GameOverIsFinal(s, cmds[1..]);
    }
  }

  /** The game is won exactly when no monster is left among the unplayed cards. */
  lemma WonIffNoMonsterLeft(s: Session)
    requires Inv(s)
    ensures s.outcome == Won <==> forall c :: c in s.Unplayed() ==> !IsMonster(c)
  {
  }

  /** While the game is on, the room is never empty. */
  lemma PlayingRoomNotEmpty(s: Session)
    requires Inv(s) && !s.IsGameOver()
    ensures s.room != []
  {
  }
}
