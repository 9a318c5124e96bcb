/**
 The rule engine of the dungeon game as pure transitions over an immutable
 session. Cards are dealt from the deck into rooms of up to four; the player
 fights monsters barehanded or with the equipped weapon, equips weapons, drinks
 potions, or runs from a room. The game is lost when health reaches 0 and won
 when no monster remains.

 Every command returns a Reply: either the next session, or the reason it was
 refused, in which case the session is unchanged. A lethal blow is not a
 refusal: the command is accepted and the game is over.
 */
module Dungeon {
  import opened Cards

  const MaxWeaponDurability: int := 15
  const MaxHealth: int := 20
  const BaseMonsters: int := 26
  const RoomSize: nat := 4

  datatype Option<T> = None | Some(value: T)

  /** The equipped weapon: the diamond it was made from and its durability. A
      weapon may only be used on a monster of value strictly below its durability. */
  datatype Weapon = Weapon(suit: Suit, value: Rank, durability: int)

  /** Whether the game is still running, and if not, how it ended. */
  datatype Outcome = Playing | Won | Lost

  datatype Session = Session(
    health: int,
    deck: seq<Card>,           // front = next card drawn
    room: seq<Card>,
    weapon: Option<Weapon>,
    chain: seq<Card>,          // monsters slain with the equipped weapon, oldest first
    canRun: bool,
    outcome: Outcome,
    remainingMonsters: int,
    canDrinkPotion: bool)      // shown to the player; no rule consults it
  {
    predicate IsGameOver() {
      outcome != Playing
    }

    /** The cards not yet played: the room, then the deck. */
    function Unplayed(): seq<Card> {
      room + deck
    }
  }

  datatype Reason = GameAlreadyOver | WrongCardType | NoWeaponEquipped | InsufficientDurability | CannotRunNow

  datatype Reply = Accepted(next: Session) | Rejected(reason: Reason)

  function Min(a: int, b: int): int {
    if a <= b then a else b
  }

  function Max(a: int, b: int): int {
    if a >= b then a else b
  }

  /* ---------------- Rooms ---------------- */

  /** Replaces the room by the first four cards of the deck (fewer if the deck is
      shorter); the previous room is dropped. */
  function DrawRoom(s: Session): (r: Session)
    ensures r.room + r.deck == s.deck
    ensures |r.room| <= RoomSize
    ensures |r.room| == RoomSize || r.deck == []
    ensures r == s.(room := r.room, deck := r.deck)
  {
    var n := Min(RoomSize, |s.deck|);
    s.(room := s.deck[..n], deck := s.deck[n..])
  }

  /** When a single card is left in the room, it goes back on top of the deck, a
      new room is drawn (so that card is dealt first), and running and drinking
      are allowed again. */
  function CheckIfRoomFinished(s: Session): (r: Session)
    ensures |s.room| != 1 ==> r == s
    ensures |s.room| == 1 ==>
      && r.room != []
      && r.room[0] == s.room[0]
      && r.Unplayed() == s.Unplayed()
      && |r.room| == Min(RoomSize, 1 + |s.deck|)
      && (|r.room| == RoomSize || r.deck == [])
      && r.canRun && r.canDrinkPotion
      && r == s.(room := r.room, deck := r.deck, canRun := true, canDrinkPotion := true)
  {
    if |s.room| == 1 then
      var lastCard := s.room[0];
      DrawRoom(s.(deck := [lastCard] + s.deck, canRun := true)).(canDrinkPotion := true)
    else s
  }

  /** What playing `card` from `room` does to the cards and the drink flag of the
      session `r` that follows, given the deck and the flag before: the room loses
      every copy of the card and the deck stays, unless a single card is left, which
      then heads a newly dealt room of up to four cards and allows drinking again. */
  ghost predicate Played(room: seq<Card>, deck: seq<Card>, canDrinkPotion: bool, card: Card, r: Session) {
    var left := Without(room, card);
    && r.Unplayed() == left + deck
    && (|left| != 1 ==> r.room == left && r.deck == deck)
    && (|left| == 1 ==> r.room != [] && r.room[0] == left[0] && |r.room| == Min(RoomSize, 1 + |deck|))
    && r.canDrinkPotion == (canDrinkPotion || |left| == 1)
  }

  /** Removes the played card from the room (every card equal to it), forbids
      running for the rest of the room, and starts a new room if one card is left. */
  function PlayCard(s: Session, card: Card): (r: Session)
    ensures s.IsGameOver() ==> r == s
    ensures !s.IsGameOver() ==>
      && Played(s.room, s.deck, s.canDrinkPotion, card, r)
      && (r.canRun <==> |Without(s.room, card)| == 1)
      && r == s.(room := r.room, deck := r.deck, canRun := r.canRun, canDrinkPotion := r.canDrinkPotion)
  {
    if s.IsGameOver() then s
    else CheckIfRoomFinished(s.(room := Without(s.room, card), canRun := false))
  }

  /* ---------------- Outcome ---------------- */

  /** Ends the game: it can no longer be played and running is disabled. */
  function EndGame(s: Session, didWin: bool): (r: Session)
    ensures r.IsGameOver() && !r.canRun
    ensures r.outcome == Won <==> didWin
    ensures r == s.(canRun := false, outcome := r.outcome)
  {
    s.(canRun := false, outcome := if didWin then Won else Lost)
  }

  /** Applies damage, never taking health below 0; at 0 the game is lost. */
  function TakeDamage(s: Session, amount: int): (r: Session)
    ensures 0 <= r.health
    ensures amount >= 0 ==> r.health <= Max(0, s.health)
    ensures r.health > 0 ==> s.health - r.health == amount
    ensures r.health == 0 <==> s.health <= amount
    ensures r.health == 0 ==> r.outcome == Lost && !r.canRun
    ensures r == s.(health := r.health, canRun := r.canRun, outcome := r.outcome)
    ensures r.health > 0 ==> r.canRun == s.canRun && r.outcome == s.outcome
  {
    var hurt := s.(health := Max(0, s.health - amount));
    if hurt.health == 0 then EndGame(hurt, false) else hurt
  }

  /** The game is won once the monster counter reaches 0. */
  function CheckIfPlayerWon(s: Session): (r: Session)
    ensures r.outcome == Won <==> s.remainingMonsters <= 0 || s.outcome == Won
    ensures s.remainingMonsters > 0 ==> r == s
    ensures s.remainingMonsters <= 0 ==> r.IsGameOver() && !r.canRun
    ensures r == s.(canRun := r.canRun, outcome := r.outcome)
  {
    if s.remainingMonsters <= 0 then EndGame(s, true) else s
  }

  /* ---------------- Commands ---------------- */

  /** The damage a monster deals: all of its value barehanded, the part above
      the weapon's value otherwise. */
  function Damage(s: Session, card: Card, barehanded: bool): int
    requires barehanded || s.weapon.Some?
  {
    if barehanded then card.value else Max(0, card.value - s.weapon.value.value)
  }

  /** Whether the blow kills the player, which ends the game before the monster
      is removed or counted. */
  predicate Lethal(s: Session, card: Card, barehanded: bool)
    requires barehanded || s.weapon.Some?
  {
    Damage(s, card, barehanded) > 0 && s.health <= Damage(s, card, barehanded)
  }

  /** The monster is slain: the counter goes down, the card is played, and the
      game may be won. */
  function Slay(s: Session, card: Card): (r: Session)
    ensures !s.IsGameOver() ==>
      && r.remainingMonsters == s.remainingMonsters - 1
      && Played(s.room, s.deck, s.canDrinkPotion, card, r)
      && r.outcome == (if r.remainingMonsters <= 0 then Won else Playing)
      && (r.canRun <==> |Without(s.room, card)| == 1 && !r.IsGameOver())
      && r.health == s.health && r.weapon == s.weapon && r.chain == s.chain
  {
    CheckIfPlayerWon(PlayCard(s.(remainingMonsters := s.remainingMonsters - 1), card))
  }

  /** Fights a monster. A weapon can be used only when its durability is strictly
      greater than the monster's value; afterwards its durability is the monster's
      value and the monster joins the weapon's chain. */
  function Fight(s: Session, card: Card, barehanded: bool): (r: Reply)
    ensures r.Rejected? <==>
      s.IsGameOver() || !IsMonster(card)
      || (!barehanded && (s.weapon.None? || s.weapon.value.durability <= card.value))
    ensures r.Rejected? && s.IsGameOver() ==> r.reason == GameAlreadyOver
    ensures r.Rejected? && !s.IsGameOver() && !IsMonster(card) ==> r.reason == WrongCardType
    ensures r.Rejected? && !s.IsGameOver() && IsMonster(card) && s.weapon.None? ==> r.reason == NoWeaponEquipped
    ensures r.Rejected? && !s.IsGameOver() && IsMonster(card) && s.weapon.Some? ==> r.reason == InsufficientDurability
    ensures r.Accepted? ==>
      r.next.health == if Damage(s, card, barehanded) > 0 then Max(0, s.health - Damage(s, card, barehanded)) else s.health
    ensures r.Accepted? && Lethal(s, card, barehanded) ==>
      && r.next.outcome == Lost && r.next.health == 0 && !r.next.canRun
      && r.next == s.(health := 0, canRun := false, outcome := Lost)
    ensures r.Accepted? && !Lethal(s, card, barehanded) ==>
      && r.next.remainingMonsters == s.remainingMonsters - 1
      && Played(s.room, s.deck, s.canDrinkPotion, card, r.next)
      && r.next.outcome == (if r.next.remainingMonsters <= 0 then Won else Playing)
      && (r.next.canRun <==> |Without(s.room, card)| == 1 && !r.next.IsGameOver())
    ensures r.Accepted? && !Lethal(s, card, barehanded) && barehanded ==>
      r.next.weapon == s.weapon && r.next.chain == s.chain
    ensures r.Accepted? && !Lethal(s, card, barehanded) && !barehanded ==>
      && r.next.weapon.Some?
      && r.next.weapon.value.durability == card.value < s.weapon.value.durability
      && r.next.weapon == Some(s.weapon.value.(durability := card.value))
      && r.next.chain == s.chain + [card]
  {
    if s.IsGameOver() then Rejected(GameAlreadyOver)
    else if KindOf(card) != MonsterCard then Rejected(WrongCardType)
    else if barehanded then
      var hurt := TakeDamage(s, card.value);
      if hurt.health == 0 then Accepted(hurt)
      else Accepted(Slay(hurt, card))
    else match s.weapon
      case None => Rejected(NoWeaponEquipped)
      case Some(w) =>
        if w.durability <= card.value then Rejected(InsufficientDurability)
        else
          var excess := card.value - w.value;
          var hurt := if excess > 0 then TakeDamage(s, excess) else s;
          if excess > 0 && hurt.health == 0 then Accepted(hurt)
          else
            var worn := hurt.(weapon := Some(w.(durability := card.value)), chain := hurt.chain + [card]);
            Accepted(Slay(worn, card))
  }

  /** Equips a weapon card: a fresh weapon at full durability replaces the old one,
      and the old chain is discarded. */
  function Equip(s: Session, card: Card): (r: Reply)
    ensures r.Rejected? <==> s.IsGameOver() || KindOf(card) != WeaponCard
    ensures r.Rejected? ==> r.reason == if s.IsGameOver() then GameAlreadyOver else WrongCardType
    ensures r.Accepted? ==>
      && r.next.weapon == Some(Weapon(card.suit, card.value, MaxWeaponDurability))
      && r.next.chain == []
      && r.next.health == s.health
      && r.next.remainingMonsters == s.remainingMonsters
      && r.next.outcome == s.outcome
      && Played(s.room, s.deck, s.canDrinkPotion, card, r.next)
      && (r.next.canRun <==> |Without(s.room, card)| == 1)
  {
    if s.IsGameOver() then Rejected(GameAlreadyOver)
    else if KindOf(card) != WeaponCard then Rejected(WrongCardType)
    else
      var armed := s.(weapon := Some(Weapon(card.suit, card.value, MaxWeaponDurability)), chain := []);
      Accepted(PlayCard(armed, card))
  }

  /** The health a potion restores, as reported to the player. */
  function Restored(health: int, value: int): int {
    Min(value, MaxHealth - health)
  }

  /** Drinks a potion. Healing is capped at MaxHealth and happens whether or not
      a potion was already drunk in this room: the once-per-room flag is lowered
      but not consulted. */
  function Drink(s: Session, card: Card): (r: Reply)
    ensures r.Rejected? <==> s.IsGameOver() || KindOf(card) != PotionCard
    ensures r.Rejected? ==> r.reason == if s.IsGameOver() then GameAlreadyOver else WrongCardType
    ensures r.Accepted? ==>
      && r.next.health == s.health + Restored(s.health, card.value)
      && r.next.health <= MaxHealth
      && (s.health <= MaxHealth ==> s.health <= r.next.health)
      && r.next.weapon == s.weapon && r.next.chain == s.chain
      && r.next.remainingMonsters == s.remainingMonsters
      && r.next.outcome == s.outcome
      && Played(s.room, s.deck, false, card, r.next)
      && (r.next.canDrinkPotion <==> |Without(s.room, card)| == 1)
      && (r.next.canRun <==> |Without(s.room, card)| == 1)
  {
    if s.IsGameOver() then Rejected(GameAlreadyOver)
    else if KindOf(card) != PotionCard then Rejected(WrongCardType)
    else
      var healed := s.(health := Min(MaxHealth, s.health + card.value), canDrinkPotion := false);
      Accepted(PlayCard(healed, card))
  }

  /** The once-per-room flag never decides anything: drinking gives the same reply
      whatever its value. */
  lemma DrinkIgnoresFlag(s: Session, card: Card, flag: bool)
    ensures Drink(s.(canDrinkPotion := flag), card) == Drink(s, card)
  {
  }

  /** Runs from the room: its cards go to the bottom of the deck and a new room is
      drawn. Running is then disabled, so two runs in a row are impossible. */
  function RunAway(s: Session): (r: Reply)
    ensures r.Rejected? <==> !s.canRun
    ensures r.Rejected? ==> r.reason == CannotRunNow
    ensures r.Accepted? ==>
      && r.next.Unplayed() == s.deck + s.room
      && multiset(r.next.Unplayed()) == multiset(s.Unplayed())
      && !r.next.canRun
      && |r.next.room| <= RoomSize
      && (|r.next.room| == RoomSize || r.next.deck == [])
      && r.next == s.(room := r.next.room, deck := r.next.deck, canRun := false)
  {
    if !s.canRun then Rejected(CannotRunNow)
    else Accepted(DrawRoom(s.(deck := s.deck + s.room, canRun := false)))
  }

  /** A new game: full health, no weapon, 26 monsters to slay, the deck built for
      the mode and shuffled with the given random draws, and the first room dealt. */
  function InitializeGame(easy: bool, draw: nat -> nat): (r: Session)
    ensures r.health == MaxHealth
    ensures r.weapon == None && r.chain == []
    ensures r.canRun && r.canDrinkPotion && r.outcome == Playing
    ensures r.remainingMonsters == BaseMonsters == MonsterCount(r.Unplayed())
    ensures multiset(r.Unplayed()) == multiset(BuildDeck(easy))
    ensures |r.room| == RoomSize
  {
    var deck := Shuffle(BuildDeck(easy), draw);
    MonsterCountPermutation(deck, BuildDeck(easy));
    DrawRoom(Session(MaxHealth, deck, [], None, [], true, Playing, BaseMonsters, true))
  }

  /* ---------------- The command surface ---------------- */

  datatype Command = FightMonster(card: Card, barehanded: bool) | EquipWeapon(card: Card) | DrinkPotion(card: Card) | Run

  function Apply(s: Session, cmd: Command): (r: Reply)
    ensures s.IsGameOver() && !s.canRun ==> r.Rejected?
    ensures r.Rejected? ==> (r.reason == GameAlreadyOver <==> s.IsGameOver() && !cmd.Run?)
  {
    match cmd
    case FightMonster(card, barehanded) => Fight(s, card, barehanded)
    case EquipWeapon(card) => Equip(s, card)
    case DrinkPotion(card) => Drink(s, card)
    case Run => RunAway(s)
  }

  /** The session after a command; a refused command changes nothing. */
  function Step(s: Session, cmd: Command): Session {
    match Apply(s, cmd)
    case Accepted(next) => next
    case Rejected(_) => s
  }
}
