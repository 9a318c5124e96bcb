# Dungeon card game rule engine

This project models the rule engine of a single-player dungeon card game in Dafny, written as pure transitions over an immutable session.

The game uses these pieces:
- **Cards.** A card is a suit and a value from 2 to 14. Spades and clubs are monsters, diamonds are weapons and hearts are potions.
- **The deck.** It holds every spade and club, and the hearts and diamonds up to 10. Easy mode adds the face and ace hearts and diamonds.
- **Rooms.** The shuffled deck is dealt into rooms of up to four cards.
- **Commands.** The player can:
  - fight a monster barehanded or with the equipped weapon;
  - equip a weapon;
  - drink a potion;
  - run from the room, unless a card of it has been played or they ran from the previous room. Running is allowed again whenever a new room is dealt because one card was left.

Combat works like this:
- A weapon may only be used on a monster whose value is strictly below the weapon's durability.
- After the fight, the durability becomes that monster's value, and the monster joins the weapon's chain.
- When one card is left in a room, it goes back on top of the deck and a new room is dealt.

The game ends as follows:
- It is lost when health reaches 0.
- It is won when the monster counter reaches 0.

The model has three modules:
- `Cards` (`cards.dfy`): cards, deck construction, the Fisher-Yates shuffle, and two operations on card sequences: counting monsters and removing a card.
- `Dungeon` (`dungeon.dfy`): the session, the commands and their internal helpers, and the command surface `Apply`/`Step`.
  - Every command returns `Accepted(next)` or `Rejected(reason)`.
  - A rejected command leaves the session unchanged. `GameAlreadyOver` stands for the silent return of a command once the game is over (script.js:273, 335, 356). The other reasons stand for the message the game logs.
  - A lethal blow is accepted: the game moves to `Lost`.
- `Invariant` (`invariant.dfy`): the invariant `Inv` holds in every reachable session. It requires that:
  - health is within 0..20;
  - the room is refilled before it runs low;
  - the unplayed cards are duplicate-free;
  - the monster counter equals the number of monsters among the unplayed cards;
  - the outcome agrees with health and the counter;
  - the weapon's chain strictly decreases, and the durability equals its last monster's value.

  The module proves that every command preserves `Inv`, and that no card is created or lost over any sequence of legal commands.

The state globals `isGameOver` and `didWin` are represented by one `Outcome` (`Playing`, `Won`, `Lost`). A new game sets them to false and null (script.js:217-218), which is `Playing`. After that only `endGame` writes them, and it writes both (script.js:836-838).

Points where the code behaves in a way a reader might not expect:
- **Potions.** A potion card's own description says potions can only be used once per room (script.js:24). The code does not enforce this. `canDrinkPotion` is lowered by a drink (script.js:367). It is raised when a carry-over deals a new room (script.js:826) and when a new game starts (script.js:221). A room dealt by running away leaves it as it was (script.js:394-406). No rule reads it; only the label of the drink button does (script.js:709-712). Drinking always heals (`Drink`, `DrinkIgnoresFlag`).
- **Winning.** The game is won as soon as the monster counter reaches 0 (script.js:324, 808-813). Potions and weapons may still be left in the deck or the room.
- **Running after the end of the game.** `runAway` has no game-over guard (script.js:394-406). It is refused after the game ends because `endGame` clears `canRun` (script.js:835).
- **A lethal blow** returns before the counter is decremented and before the card is played (script.js:286-289, 309-312). The monster stays in the room and the weapon is untouched.
- **Commands take any card.** They do not check that the card lies in the room. The invariant lemmas assume it does, which the UI guarantees by offering only room cards.
- **Easy mode** deals all 52 cards: the hearts and diamonds of every value are added (script.js:235-238).

## Model

| member | source | states |
|---|---|---|
| Cards.Row | script.js:233-242 | One pass of the inner loop over the suits for value v holds exactly the cards of value v that the mode deals. Those cards are distinct, there are 4 of them (2 for a face card or ace in normal mode), and 2 are monsters. |
| Cards.DealFrom | script.js:232-243 | The outer loop from value v on holds exactly the dealt cards of value ≥ v, and its length is the dealt count for that range. |
| Cards.DealFromDistinct | script.js:232-243 | The cards the loop deals from value v on are pairwise distinct. |
| Cards.DealFromMonsters | script.js:232-243 | The loop from value v on deals exactly 2·(15−v) monsters. |
| Cards.BuildDeck | script.js:230-245 | The population is exactly the dealt cards: 44 distinct cards in normal mode and 52 in easy mode. 26 of them are monsters in either mode. |
| Cards.Swap | script.js:200 | The destructuring swap exchanges the two positions, leaves every other position alone, and keeps the multiset. |
| Cards.ShuffleDown | script.js:198-201 | The Fisher-Yates passes from position i down to 1 only permute the cards, whatever the random draws. |
| Cards.Shuffle | script.js:197-203 | The shuffle returns a permutation of its input of the same length, whatever the random draws. |
| Cards.KindOf | script.js:28-38 | Spades and clubs, and only they, are monsters; diamonds, and only they, are weapons; hearts, and only they, are potions. |
| Cards.MonsterCount | script.js:184 | The number of monsters among a sequence of cards, which is what the counter `remainingMonsters` tracks. It starts at 26 (script.js:220), is decremented on each kill (script.js:324) and is tested for the win (script.js:809). The count is at most the length, and it is 0 exactly when no card of the sequence is a monster. |
| Cards.MonsterCountPermutation | script.js:197-203 | Reordering cards, as the shuffle and a run do, does not change how many monsters they hold. |
| Cards.Without | script.js:381-383 | The filter drops every card equal in suit and value to the played one and keeps all others, in their order. The length drops by that card's number of copies, and the monster count drops accordingly. |
| Dungeon.DrawRoom | script.js:250-253 | The new room followed by the new deck is exactly the old deck. The room holds four cards, or the whole deck if it is shorter. Nothing else changes. |
| Dungeon.CheckIfRoomFinished | script.js:818-828 | With exactly one card left, that card becomes the first card of the newly dealt room. The unplayed cards are unchanged, and running and drinking are allowed again. Otherwise nothing changes. |
| Dungeon.PlayCard | script.js:377-389 | Once the game is over nothing changes. Otherwise the card is played, as the predicate `Played` states. Without a carry-over, the room loses every copy of the card and the deck and drink flag stay. When one card is left, it heads a newly dealt room of min(4, 1 + deck size) cards and drinking is allowed again. Running is allowed exactly when that carry-over happened. |
| Dungeon.EndGame | script.js:834-839 | The game is over, running is disabled, and the outcome is Won exactly when didWin is set. Nothing else changes. |
| Dungeon.TakeDamage | script.js:413-420 | Health never goes below 0. A survivor loses exactly the damage. Health reaches 0 exactly when the damage is at least the health, and then the game is lost. |
| Dungeon.CheckIfPlayerWon | script.js:808-813 | The game is won exactly when the counter is ≤ 0 (or was already won). A win goes through `endGame`, so the game is over and running is disabled. Otherwise nothing changes. |
| Dungeon.Slay | script.js:324-327 | After a kill the counter is one lower and the card is played (`Played`: room, deck and drink flag, including the carry-over). The game is won when the counter reaches 0. Running is allowed exactly when a carry-over happened and the game is not won. Health, weapon and chain are unchanged. |
| Dungeon.Fight | script.js:272-328 | The fight is refused exactly when any of these holds: the game is over, the card is not a monster, or a weapon fight has no weapon or durability ≤ the monster's value. Each case has its own reason. Health drops by the damage, clamped at 0: the full value barehanded, or the excess over the weapon's value when armed. A lethal blow only sets health 0, Lost and no running; the monster stays and the counter is unchanged. Otherwise the counter drops by one, the monster is played (`Played`: room, deck, carry-over and drink flag), and the game is won at 0. Running is allowed exactly after a carry-over when the game is not won. An armed fight sets durability to exactly the monster's value, strictly below the old durability, and appends the monster to the chain. |
| Dungeon.Equip | script.js:334-349 | Equipping is refused exactly when the game is over or the card is not a weapon. It installs a weapon with the card's suit and value at durability 15 and empties the chain. It plays the card (`Played`: room, deck, carry-over and drink flag). Running is allowed exactly after a carry-over. Health, the counter and the outcome are unchanged. |
| Dungeon.Drink | script.js:355-371 | Drinking is refused exactly when the game is over or the card is not a potion; the once-per-room flag plays no part. Health grows by exactly the reported restored amount min(value, 20 − health), never above 20. The card is played from a session whose flag is lowered (`Played`), so the flag stays lowered unless a carry-over dealt a new room. Running is allowed exactly after a carry-over. |
| Dungeon.DrinkIgnoresFlag | script.js:355-371 | The reply to drinking is the same whatever the value of canDrinkPotion. |
| Dungeon.RunAway | script.js:394-406 | Running is refused exactly when canRun is false. Otherwise the room goes to the back of the deck and a new room is dealt. The unplayed cards keep their multiset and running is disabled, so a second run in a row is refused. |
| Dungeon.InitializeGame | script.js:206-225 | A new game has health 20, no weapon, an empty chain, running and drinking allowed, and the game in progress. Its 26-monster counter equals the monsters actually dealt, its unplayed cards are a permutation of the built deck, and a full room is dealt. |
| Dungeon.Apply | script.js:272-406 | Once the game is over and running is disabled, every command is refused. A refusal carries GameAlreadyOver exactly when the game is over and the command is not a run. |
| Invariant.PlayCardKeepsShape | script.js:377-389 | Playing a room card removes exactly one copy from the unplayed cards. The cards stay distinct, the monster count drops by one exactly for a monster, and the room keeps its shape. |
| Invariant.ChainGrows | script.js:316-321 | Appending a monster weaker than the durability, with the durability set to its value, keeps the chain strictly decreasing and in agreement with the weapon. |
| Invariant.SlayKeepsInv | script.js:324-327 | Counting and playing a slain room monster, then checking for the win, keeps the invariant and plays exactly that card. |
| Invariant.FightKeepsInv | script.js:272-328 | An accepted fight keeps the invariant. It plays the monster, or nothing when the blow is lethal. |
| Invariant.LethalKeepsInv | script.js:284-312 | A lethal blow keeps the invariant and leaves the unplayed cards as they were. |
| Invariant.ArmedKeepsInv | script.js:296-327 | A surviving weapon fight keeps the invariant, including the decreasing chain, and plays exactly the monster. |
| Invariant.EquipKeepsInv | script.js:334-349 | An accepted equip keeps the invariant and plays exactly the weapon card. |
| Invariant.DrinkKeepsInv | script.js:355-371 | An accepted drink keeps the invariant and plays exactly the potion card. |
| Invariant.RunKeepsInv | script.js:394-406 | An accepted run keeps the invariant. |
| Invariant.StepKeepsInv | script.js:272-406 | Any command on a room card keeps the invariant. The unplayed cards plus the card it spent are the unplayed cards before. |
| Invariant.PlayKeepsInv | script.js:272-406 | Over any sequence of legal commands the invariant holds. The unplayed cards plus every card spent are the unplayed cards at the start. |
| Invariant.InitializeGameEstablishesInv | script.js:206-253 | A new game satisfies the invariant. |
| Invariant.Conservation | script.js:206-406 | In every game reached by legal commands from a new one, the invariant holds. The unplayed cards plus the played cards are exactly the deck that was built. |
| Invariant.GameOverIsFinal | script.js:834-839 | Once the game has ended, no sequence of commands changes the session. |
| Invariant.WonIffNoMonsterLeft | script.js:808-813 | In a reachable session the game is won exactly when no monster is left among the unplayed cards. |
| Invariant.PlayingRoomNotEmpty | script.js:818-828 | While the game is in progress the room is never empty. |

## Left out

- The DOM rendering functions (script.js:428-577) are out of scope, along with the overlap-margin constants and the health glow colour (floating-point presentation).
- The state subscriptions and the timed health animation (script.js:583-802) are out of scope. So is the `createState` observer plumbing (script.js:68-102): change notification, not rules.
- These are string-only helpers and play no part in the rules: card titles, descriptions, card faces, `capitalizeFirstLetter` and `log`. Log messages become rejection reasons.
- The debug helpers (script.js:850-880) are not part of the game.
- The event listeners, settings toggles and `selectObject` (script.js:883-928, 260-266) are UI only. Easy mode is a parameter of `InitializeGame`.
- `selectedObject` and `logs` are presentation state and are dropped.
- `Weapon.isEquipped` is dropped: it only hides the equip button.
- A slain monster in the chain (`DeadMonster`) is represented as a plain card.
- The `!card` null guards are dropped: a Dafny card is never null.
- `Math.random` is replaced by a parameter `draw`: the swap index at position i is `draw(i) % (i + 1)`, which is the source's `Math.floor(Math.random() * (i + 1))`.
- Cards.Shuffle: states that the result is a permutation, not that every permutation is equally likely or reachable, because the random source is a parameter.
- Invariant.StepKeepsInv: assumes the card played lies in the room, because the commands themselves never check this.
