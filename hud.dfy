/**
 * The heads-up display's game logic: the ability catalogue, the four
 * shortcut slots, and spending mana on an ability.
 */
module Hud {
  import opened Wrappers
  import opened Players

  datatype Effect = Attack(damage: nat) | Heal(amount: nat) | Defense(amount: nat)

  datatype Ability = Ability(id: string, name: string, effect: Effect, manaCost: nat)

  const Abilities: seq<Ability> := [
    Ability("fireball", "Fireball", Attack(20), 15),
    Ability("icebolt", "Ice Bolt", Attack(15), 10),
    Ability("heal", "Heal", Heal(30), 20),
    Ability("staff", "Staff Strike", Attack(10), 0),
    Ability("sword", "Sword Slash", Attack(15), 0),
    Ability("shield", "Magic Shield", Defense(20), 25),
    Ability("lightning", "Lightning", Attack(25), 30),
    Ability("poison", "Poison Cloud", Attack(12), 20)
  ]

  const ShortcutCount: nat := 4

  /** `findIndex(slot => slot === null)`: the lowest empty slot, or -1. */
  function FirstEmpty(slots: seq<Option<Ability>>): (i: int)
    ensures -1 <= i < |slots|
    ensures i == -1 <==> forall j :: 0 <= j < |slots| ==> slots[j].Some?
    ensures 0 <= i ==> slots[i].None? && forall j :: 0 <= j < i ==> slots[j].Some?
  {
    if slots == [] then -1
    else if slots[0].None? then 0
    else
      var i := FirstEmpty(slots[1..]);
      if i == -1 then -1 else i + 1
  }

  /** How many slots hold an ability. */
  function Filled(slots: seq<Option<Ability>>): (n: nat)
    ensures n <= |slots|
  {
    if slots == [] then 0 else Filled(slots[..|slots| - 1]) + (if slots[|slots| - 1].Some? then 1 else 0)
  }

  /** The slots after `assignToEmptyShortcut(a)`. */
  function Assign(slots: seq<Option<Ability>>, a: Ability): seq<Option<Ability>>
  {
    var i := FirstEmpty(slots);
    if i == -1 then slots else slots[i := Some(a)]
  }

  /** Filling one empty slot raises the count by exactly one. */
  lemma {:induction false} FillOne(slots: seq<Option<Ability>>, i: int, a: Ability)
    requires 0 <= i < |slots| && slots[i].None?
    ensures Filled(slots[i := Some(a)]) == Filled(slots) + 1
    decreases |slots|
  {
    var n := |slots| - 1;
    var updated := slots[i := Some(a)];
    if i == n {
      assert updated[..n] == slots[..n];
    } else {
      assert updated[..n] == slots[..n][i := Some(a)];
      FillOne(slots[..n], i, a);
    }
  }

  /**
   * Assigning fills the lowest empty slot and leaves every other slot as it
   * was; with every slot taken nothing changes; the filled count never
   * drops and rises by one exactly when there was room.
   */
  lemma AssignEffect(slots: seq<Option<Ability>>, a: Ability)
    ensures |Assign(slots, a)| == |slots|
    ensures FirstEmpty(slots) == -1 ==> Assign(slots, a) == slots
    ensures FirstEmpty(slots) >= 0 ==> Assign(slots, a)[FirstEmpty(slots)] == Some(a)
    ensures forall j :: 0 <= j < |slots| && j != FirstEmpty(slots) ==> Assign(slots, a)[j] == slots[j]
    ensures Filled(Assign(slots, a)) == Filled(slots) + (if FirstEmpty(slots) >= 0 then 1 else 0)
  {
    var i := FirstEmpty(slots);
    if i >= 0 {
      FillOne(slots, i, a);
    }
  }

  /** Assigning into a bar of four fills the slots left to right. */
  lemma FillsLeftToRight(a: Ability, b: Ability)
    ensures Assign(Assign([None, None, None, None], a), b) == [Some(a), Some(b), None, None]
  {
    assert FirstEmpty([None, None, None, None]) == 0;
    assert FirstEmpty([Some(a), None, None, None]) == 1;
  }

  /** Mana after `useAbility`: the cost is paid only when the mana covers it. */
  function Spend(mana: int, cost: nat): (m: int)
    ensures m <= mana
    ensures mana >= 0 ==> m >= 0
    ensures mana >= cost ==> m == mana - cost
    ensures mana < cost ==> m == mana
  {
    if mana >= cost then mana - cost else mana
  }

  class HUD {
    const player: Player
    const shortcuts: array<Option<Ability>>

    constructor(player: Player)
      ensures this.player == player
      ensures fresh(shortcuts) && shortcuts[..] == [None, None, None, None]
    {
      this.player := player;
      shortcuts := new Option<Ability>[ShortcutCount](_ => None);
    }

    /** `assignToEmptyShortcut`: put the ability in the lowest empty slot, if there is one. */
    method AssignToEmptyShortcut(ability: Ability)
      modifies shortcuts
      ensures shortcuts[..] == Assign(old(shortcuts[..]), ability)
      ensures Filled(shortcuts[..]) >= old(Filled(shortcuts[..]))
    {
      var emptyIndex := FirstEmpty(shortcuts[..]);
      AssignEffect(shortcuts[..], ability);
      if emptyIndex != -1 {
        shortcuts[emptyIndex] := Some(ability);
      }
    }

    /** `useAbility`: pay the mana cost if the player can afford it. */
    method UseAbility(ability: Ability)
      modifies player
      ensures player.mana == Spend(old(player.mana), ability.manaCost)
      ensures player.Sheet() == old(player.Sheet()) && player.maxMana == old(player.maxMana)
      ensures player.x == old(player.x) && player.y == old(player.y)
    {
      if player.mana >= ability.manaCost {
        player.mana := player.mana - ability.manaCost;
      }
    }
  }
}
