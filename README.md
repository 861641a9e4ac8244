# Cauldronic game logic in Dafny

Cauldronic is a browser role-playing game on a tile map. This project models
its game logic:

- the terrain generator: plains, ponds, a sand shore, mountain ranges;
- the A* pathfinder over passable tiles;
- the game's keyboard movement flags and its tile searches (safe start, nearest passable tile, tile next to a monster);
- the player's levelling, damage and healing;
- the monster manager: catalogue, spawning, lookup, level cap by terrain, removal with respawn;
- turn-based combat with a one-second cooldown;
- the renderer's colour logic (neighbour colours for blending, `adjustColor`);
- the heads-up display's ability shortcuts and mana spending.

The map is an `array2<Tile>` indexed `[y, x]`. Tiles are objects, so the
identity comparisons the monster manager makes (`===`) mean what they mean
in the game. The generator's passes are methods on that array. Each is
proved against a pure function on a grid of tile kinds (`TerrainSpec`).

`Math.random()`, `Date.now()` and key events become parameters. A draw is a
`real` in `[0, 1)`. `Math.floor(Math.random() * n)` is `TerrainSpec.Scale`.

Invalid map sizes and out-of-range coordinates are not rejected up front
anywhere in the game. The model follows the code:

- an out-of-range cell is simply not passable;
- a map with no rows has no valid cell at all, where the game would throw on `terrain[0].length`.

Modules, one per source file:

- `Tiles`
- `Grid`, shared geometry
- `TerrainSpec` and `TerrainGeneration`
- `Pathfinding`
- `Game`
- `Players`
- `Monsters`
- `Combats`
- `Rendering`
- `Hud`

## Model

| member | source | states |
|---|---|---|
| Tiles.ColorDeterminesKind | js/terrainGenerator.js:5-11 | the five terrain colours are pairwise distinct, so comparing colours (as `addSandAroundWater` does) tells kinds apart |
| Tiles.Tile.OnlyWaterBlocks | js/terrainGenerator.js:5-11 | of the five terrain types only water is impassable; mountains are passable at speed 0.2 |
| Tiles.Tile.Spread | js/terrainGenerator.js:59 | `{...tile}` makes a fresh object with the same colour, passability and speed |
| Tiles.TerrainTypes.constructor | js/terrainGenerator.js:5-11 | the five catalogue tiles with their colours, passability and speed |
| Tiles.TerrainTypes.Copy | js/terrainGenerator.js:59 | a copy of a catalogue entry is a fresh tile of the requested kind |
| Grid.NeighborsAreSteps | js/pathfinder.js:55-69 | a cell is in the neighbour list exactly when it is an in-bounds passable cell one orthogonal step away |
| Grid.WalkPrefix | js/pathfinder.js:55-69 | every prefix of a walk of passable orthogonal steps is a walk |
| Grid.WalkSuffix | js/pathfinder.js:55-69 | every suffix of a walk is a walk from the node it starts at |
| Grid.WalkAppend | js/pathfinder.js:55-69 | two walks that meet concatenate into one walk |
| Grid.ReachableEndWalkable | js/pathfinder.js:63 | any cell reached by at least one step is in bounds and passable |
| Grid.ShortestIsSimple | js/pathfinder.js:94-102 | a walk no longer than any other between the same cells enters no cell twice and never returns to its start |
| Grid.CellsSize | js/pathfinder.js:71-73 | a width-by-height map has width times height valid positions |
| Grid.CellsSplit | js/pathfinder.js:71-73 | the positions of a map with one more row are those of the smaller map plus the new row, which is disjoint from them |
| TerrainSpec.Tabulate | js/terrainGenerator.js:16-18 | the grid built cell by cell has the map's shape and the given kind in every cell |
| TerrainSpec.PlainGrid | js/terrainGenerator.js:16-18 | the starting map is plains everywhere |
| TerrainSpec.Set | js/terrainGenerator.js:59 | writing one cell changes that cell and no other |
| TerrainSpec.StampStart | js/terrainGenerator.js:47-48 | before the first offset of a square sweep nothing has changed |
| TerrainSpec.StampAdvance | js/terrainGenerator.js:47-63 | one step of a square sweep rewrites exactly the in-bounds cell at that offset |
| TerrainSpec.StampRow | js/terrainGenerator.js:47-48 | finishing a row of offsets is starting the next one |
| TerrainSpec.StampEnd | js/terrainGenerator.js:47-64 | after the last row the sweep has produced the whole stamp |
| TerrainSpec.JitterIndexInRange | js/terrainGenerator.js:58 | every offset of the pond square has its own draw for the jitter |
| TerrainSpec.PondOnlyWritesWater | js/terrainGenerator.js:46-64 | `createWaterBody` changes a cell only to water, and only inside its square |
| TerrainSpec.PondEnd | js/terrainGenerator.js:46-64 | once the row offset passes the size, the pond sweep has produced the whole pond stamp |
| TerrainSpec.SmallPondShape | js/terrainGenerator.js:46-64 | a pond of size 2 (the size `generate` passes) always floods its centre and four orthogonal neighbours and never a cell at distance 2 or more |
| TerrainSpec.SandStart | js/terrainGenerator.js:66-67 | the sand pass starts from an exact copy of the map |
| TerrainSpec.WaterBeforeStep | js/terrainGenerator.js:69-74 | scanning one more cell adds exactly that cell's water to the set of water cells already seen next to a given cell |
| TerrainSpec.SandAdvance | js/terrainGenerator.js:69-93 | a water cell turns its eight non-water neighbours to sand in the copy; any other cell changes nothing |
| TerrainSpec.SandStep | js/terrainGenerator.js:75-88 | one in-bounds, off-centre neighbour step turns that neighbour to sand unless the original map has water there, and changes no other cell |
| TerrainSpec.SandRow | js/terrainGenerator.js:69-70 | finishing a row of the scan is starting the next one |
| TerrainSpec.SandEnd | js/terrainGenerator.js:66-96 | the full scan produces the whole sand pass |
| TerrainSpec.SandKeepsWater | js/terrainGenerator.js:86 | the sand pass neither adds nor removes water |
| TerrainSpec.SandRing | js/terrainGenerator.js:71-88 | a cell becomes sand exactly when it is not water and touches water (diagonals included); every other cell keeps its kind |
| TerrainSpec.SandIdempotent | js/terrainGenerator.js:66-96 | a second sand pass changes nothing |
| TerrainSpec.SandPassShores | js/terrainGenerator.js:66-96 | after the sand pass no plain or hill cell touches water |
| TerrainSpec.DrierLessShore | js/terrainGenerator.js:71-86 | with less water there are no more cells next to water |
| TerrainSpec.SameWaterSameShore | js/terrainGenerator.js:71-86 | maps with the same water have the same cells next to water |
| TerrainSpec.MountainSizeRange | js/terrainGenerator.js:99 | a mountain range's size is 2, 3 or 4 |
| TerrainSpec.MountainShape | js/terrainGenerator.js:101-122 | inside half the radius a cell becomes mountain; in the outer ring plains become hills and other kinds stay; outside the circle nothing changes |
| TerrainSpec.RangeEnd | js/terrainGenerator.js:98-123 | once the row offset passes the size, the mountain sweep has produced the whole mountain stamp |
| TerrainSpec.MountainKeepsShore | js/terrainGenerator.js:98-123 | a mountain range never puts a plain or hill cell next to water |
| TerrainSpec.ScaleInRange | js/terrainGenerator.js:23-24 | `Math.floor(Math.random() * n)` lies in `[0, n)` for positive `n` |
| TerrainSpec.PondsStep | js/terrainGenerator.js:22-28 | the water attempts are applied one after another in order |
| TerrainSpec.RangesStep | js/terrainGenerator.js:35-41 | the mountain attempts are applied one after another in order |
| TerrainSpec.RangesKeepShore | js/terrainGenerator.js:33-41 | any sequence of mountain attempts keeps every plain and hill cell away from water |
| TerrainSpec.GeneratedIsShored | js/terrainGenerator.js:14-44 | on every generated map, whatever the draws, no plain or hill cell touches water |
| TerrainGeneration.TerrainGenerator.constructor | js/terrainGenerator.js:2-12 | width, height and a fresh catalogue of the five terrain types |
| TerrainGeneration.TerrainGenerator.Put | js/terrainGenerator.js:59 | storing a fresh copy of a catalogue tile changes the kind of exactly that cell |
| TerrainGeneration.TerrainGenerator.PondCell | js/terrainGenerator.js:49-60 | one offset of `createWaterBody` advances the sweep by one cell |
| TerrainGeneration.TerrainGenerator.PondRow | js/terrainGenerator.js:48-63 | one row of offsets of `createWaterBody` advances the sweep to the start of the next row |
| TerrainGeneration.TerrainGenerator.CreateWaterBody | js/terrainGenerator.js:46-64 | the map afterwards is the pond stamp of the map before |
| TerrainGeneration.TerrainGenerator.RangeCell | js/terrainGenerator.js:103-119 | one offset of `createMountainRange` advances the sweep by one cell |
| TerrainGeneration.TerrainGenerator.RangePut | js/terrainGenerator.js:107-119 | an in-bounds offset of `createMountainRange` gives that cell the mountain rule's kind for its distance and current kind, and changes no other cell |
| TerrainGeneration.TerrainGenerator.RangeRow | js/terrainGenerator.js:102-121 | one row of offsets of `createMountainRange` advances the sweep to the start of the next row |
| TerrainGeneration.TerrainGenerator.CreateMountainRange | js/terrainGenerator.js:98-123 | the map afterwards is the mountain stamp of the map before, with the size drawn from `[2, 4]` |
| TerrainGeneration.TerrainGenerator.DeepCopy | js/terrainGenerator.js:67 | the copy is a fresh map with the same kind in every cell |
| TerrainGeneration.TerrainGenerator.SandCell | js/terrainGenerator.js:75-88 | one neighbour of a water cell: sand if it is in bounds, not the centre and not water in the original |
| TerrainGeneration.TerrainGenerator.SandPut | js/terrainGenerator.js:85-88 | the neighbour becomes sand in the copy unless it is water in the original, where the copy keeps its kind; no other cell changes |
| TerrainGeneration.TerrainGenerator.SandAround | js/terrainGenerator.js:73-90 | the eight neighbours of one water cell are turned to sand in the copy |
| TerrainGeneration.TerrainGenerator.AddSandAroundWater | js/terrainGenerator.js:66-96 | returns a fresh map equal to the sand pass of the input, leaving the input alone |
| TerrainGeneration.TerrainGenerator.PlainTerrain | js/terrainGenerator.js:16-18 | a fresh map of plains, each cell its own copy |
| TerrainGeneration.TerrainGenerator.Generate | js/terrainGenerator.js:14-44 | the map is plains, then the ponds, then the sand shore, then the mountain ranges, all driven by the given draws |
| Pathfinding.Heuristic | js/pathfinder.js:75-77 | the Manhattan distance is zero exactly at the target |
| Pathfinding.HeuristicConsistent | js/pathfinder.js:75-77 | one orthogonal step changes the heuristic by exactly one |
| Pathfinding.HeuristicAlongWalk | js/pathfinder.js:75-77 | the heuristic never overestimates the length of a walk (admissible) |
| Pathfinding.Remove | js/pathfinder.js:26 | deleting from the open set removes that key and keeps every other |
| Pathfinding.RemoveNoDup | js/pathfinder.js:26 | the open set stays free of duplicates after a deletion |
| Pathfinding.GetLowestFScore | js/pathfinder.js:79-92 | null exactly for an empty open set; otherwise a member with the least f-score, the first such in insertion order |
| Pathfinding.Pathfinder.GetNeighbors | js/pathfinder.js:55-69 | the in-bounds passable orthogonal neighbours, in the order left, right, up, down |
| Pathfinding.Pathfinder.ReconstructPath | js/pathfinder.js:94-102 | the chain of predecessors back to the start, start excluded, in walking order |
| Pathfinding.Pathfinder.InUniverse | js/pathfinder.js:20-50 | every key the search touches is the start or a valid position |
| Pathfinding.Pathfinder.SelectedIsOptimal | js/pathfinder.js:21 | the open key with least f-score already has its shortest distance from the start |
| Pathfinding.Pathfinder.ExhaustedCoversReachable | js/pathfinder.js:20-52 | once the open set is empty every reachable cell has been closed |
| Pathfinding.Pathfinder.ChainIsWalk | js/pathfinder.js:94-102 | following `cameFrom` from any scored key gives a walk from the start of length its g-score |
| Pathfinding.Pathfinder.CloseCurrent | js/pathfinder.js:26-27 | moving the selected key from open to closed keeps the search invariant and shrinks what is left to close |
| Pathfinding.Pathfinder.RelaxNeighbor | js/pathfinder.js:32-48 | recording a better route to a neighbour keeps the search invariant |
| Pathfinding.Pathfinder.RelaxScored | js/pathfinder.js:47-48 | every open key's f-score stays its g-score plus its heuristic |
| Pathfinding.Pathfinder.RelaxLinked | js/pathfinder.js:46-47 | every predecessor link still leads back to the start |
| Pathfinding.Pathfinder.RelaxExpanded | js/pathfinder.js:40-47 | every passable neighbour of a closed key is closed or open with a g-score at most one more |
| Pathfinding.Pathfinder.RelaxOptimal | js/pathfinder.js:47 | updating an open key leaves the closed keys' distances optimal |
| Pathfinding.Pathfinder.RelaxDone | js/pathfinder.js:32-48 | the neighbours handled so far are closed or open with a g-score at most one more than the current key's |
| Pathfinding.Pathfinder.GoalChainIsShortest | js/pathfinder.js:22-23 | when the target is selected, the reconstructed path is a walk to it no longer than any other walk |
| Pathfinding.Pathfinder.FinishExpansion | js/pathfinder.js:32-49 | after all neighbours of the current key the search invariant holds again |
| Pathfinding.Pathfinder.ExpandCell | js/pathfinder.js:29-49 | relaxing all neighbours of the closed key keeps the search invariant |
| Pathfinding.Pathfinder.FindPath | js/pathfinder.js:6-53 | an empty path when start is the target; otherwise a walk of passable orthogonal steps to the target that is as short as any, never revisits a cell and never returns to the start; null exactly when the target is unreachable; at most one round per cell plus one |
| Pathfinding.Pathfinder.RoundsBound | js/pathfinder.js:20-27 | a cell is closed at most once, so the rounds are bounded by the number of cells plus the start |
| Game.Held.With | js/game.js:150-190 | setting one direction flag changes that flag and no other |
| Game.Held.Dx | js/game.js:196 | the horizontal step is in `-1..1`: right exactly when only right is held, left exactly when only left is held |
| Game.Held.Dy | js/game.js:197 | the vertical step is in `-1..1`: down exactly when only down is held, up exactly when only up is held |
| Game.KeyDirection | js/game.js:151-168 | arrow keys and w/s/a/d select up, down, left, right; no other key selects anything |
| Game.ReleaseUndoesPress | js/game.js:150-190 | pressing and then releasing a key that was not held restores the flags |
| Game.ReleasedStandsStill | js/game.js:196-197 | with no key held the player does not move |
| Game.FirstPassableUnique | js/game.js:286-295 | the safe starting position is determined uniquely |
| Game.NearestUnique | js/game.js:256-280 | the nearest passable tile in the ring order is determined uniquely |
| Game.InsideWithinRadius | js/game.js:258 | every valid position lies within the search radius of any valid target |
| Game.Movement.constructor | js/game.js:57-62 | all four direction flags start released |
| Game.Game.constructor | js/game.js:57-62 | the game keeps its map and starts with all movement flags released |
| Game.Game.HandleKeyDown | js/game.js:150-169 | a direction key sets exactly its flag; any other key changes nothing |
| Game.Game.HandleKeyUp | js/game.js:171-190 | a direction key clears exactly its flag; any other key changes nothing |
| Game.Game.FindSafeStartingPosition | js/game.js:286-295 | the first passable tile in row-major order, or `(0, 0)` if there is none |
| Game.Game.FindAdjacentTile | js/game.js:297-310 | null exactly when no orthogonal neighbour of the monster is passable and in bounds; otherwise the first such in the order left, right, up, down |
| Game.Game.FindNearestPassableTile | js/game.js:256-280 | a passable tile at least Chebyshev distance, first in row-major order on its ring; with none inside the radius, the safe starting position |
| Players.Grow15 | js/player.js:59 | equals `Math.floor(n * 1.5)` computed exactly |
| Players.Grow12 | js/player.js:60-62 | equals `Math.floor(n * 1.2)` computed exactly |
| Players.GrowthIncreases | js/player.js:59-62 | the growth factors never shrink a non-negative value and strictly raise thresholds from 2 and values from 5 |
| Players.PromoteEffect | js/player.js:56-63 | a level up adds one level, pays the threshold out of the experience (never below zero), refills health to the new maximum and grows threshold, maximum health and power |
| Players.Settle | js/player.js:51-53 | after levelling, experience is below the threshold; the level rises exactly when the experience reached the threshold, with health refilled |
| Players.FirstLevel | js/player.js:48-63 | a new character with 100 experience reaches level 2 with 0 experience, 150 to the next level, 120 health and 12 power |
| Players.Player.constructor | js/player.js:2-21 | level 1, 0 experience, 100 to the next level, 100 health and mana, power 10 |
| Players.Player.LevelUp | js/player.js:56-63 | the progression fields become the level-up of the old ones; position and mana are unchanged |
| Players.Player.GainXP | js/player.js:48-54 | the sheet becomes the settled sheet with the amount added; experience ends below the threshold |
| Players.Player.TakeDamage | js/player.js:65-68 | health drops by the amount but not below zero; the result is whether health is still positive; other fields stay |
| Players.Player.Heal | js/player.js:70-72 | health rises by the amount but not above the maximum; other fields stay |
| Monsters.TypeIndexInRange | js/monsterManager.js:53-54 | the drawn level indexes the catalogue for every cap from 1 to 10 |
| Monsters.Monster.constructor | js/monsterManager.js:29-34 | a monster copies its type, stands at the chosen position and starts at full health |
| Monsters.FirstAt | js/monsterManager.js:88-90 | `find` returns the first monster at the position, or nothing exactly when none stands there |
| Monsters.FindIndex | js/monsterManager.js:109 | the index of the first occurrence of the monster, or -1 exactly when it is absent |
| Monsters.DropKeepsApart | js/monsterManager.js:111 | removing one entry keeps monsters on distinct cells and removes that monster |
| Monsters.MonsterManager.constructor | js/monsterManager.js:2-20 | the manager keeps the map and catalogue and runs `spawnMonsters`: at most 20 fresh monsters at full health, each on the first candidate of its own draw that was free of the monsters placed before it and of the type the code picks for that cell (so among the three weakest on a map of copied tiles); fewer than 20 only when the next spawn's draws held no free candidate |
| Monsters.MonsterManager.GetMonsterAt | js/monsterManager.js:87-91 | a monster standing at the position if there is one; nothing exactly when the position is free |
| Monsters.MonsterManager.MonsterAtIsUnique | js/monsterManager.js:83-91 | with monsters on distinct cells, the lookup finds the one monster standing there |
| Monsters.MonsterManager.CandidateInterior | js/monsterManager.js:74-75 | a candidate position keeps off the map's border rows and columns |
| Monsters.MonsterManager.GetRandomPassablePosition | js/monsterManager.js:72-81 | the first candidate that is passable and unoccupied; nothing exactly when no candidate is |
| Monsters.MonsterManager.IsNearTerrainType | js/monsterManager.js:57-70 | true exactly when one of the nine cells around the position (itself included) matches the target |
| Monsters.MonsterManager.LevelCapWith | js/monsterManager.js:40-51 | the cap is 10, 7, 5 or 3 by the first test that holds |
| Monsters.MonsterManager.LevelCapAsWritten | js/monsterManager.js:40-51 | the cap as the code computes it, comparing tiles by identity against the catalogue |
| Monsters.MonsterManager.AsWrittenCapIsThree | js/monsterManager.js:43-64 | on any map made of copied tiles the as-written cap is always 3 |
| Monsters.MonsterManager.LevelCap | js/monsterManager.js:40-51 | the cap with tiles compared by kind |
| Monsters.MonsterManager.CapByTerrain | js/monsterManager.js:39-51 | by kind: cap 10 exactly near a mountain, 7 exactly near a hill and no mountain, otherwise 3; never 5, since no tile is swamp |
| Monsters.MonsterManager.GetMonsterTypeForPosition | js/monsterManager.js:38-55 | for the given terrain tests (the code's are the identity tests), the type at the drawn level below the cap those tests give, so among the first cap entries of the catalogue |
| Monsters.MonsterManager.AsWrittenSpawnsWeakest | js/monsterManager.js:38-55 | with identity tests on a map of copied tiles, every drawn type is a rat, a cow or a skeleton |
| Monsters.MonsterManager.ByKindNearMountainTop | js/monsterManager.js:43-54 | with the corrected by-kind tests, next to a mountain a draw of at least 0.9 picks the large dragon |
| Monsters.MonsterManager.Spawn | js/monsterManager.js:26-34 | a monster is placed exactly when some candidate was free; it is fresh, at full health, appended after the others, stands on the FIRST free candidate of the draws (every earlier candidate was taken or impassable) and has the type the identity-comparing cap gives for that cell; on a map of copied tiles it is one of the three weakest types |
| Monsters.MonsterManager.SpawnMonsters | js/monsterManager.js:22-36 | up to 20 fresh monsters at full health appended in order, existing monsters untouched; the i-th stands on the first candidate of `draws[i]` free of the monsters before it and has the type drawn by `draws[i]`'s level for that cell; fewer than 20 only when the draws of the first spawn that failed held no free candidate; on a map of copied tiles all are among the three weakest types |
| Monsters.RecruitedAppend | js/monsterManager.js:25-35 | one more monster at full health (of a weakest type on copied tiles) keeps the whole batch of newly placed monsters in that state |
| Monsters.MonsterManager.SpawnedInterior | js/monsterManager.js:72-81 | a monster a spawn placed stands off the border of any map at least three cells wide and tall, since it stands on a candidate |
| Monsters.MonsterManager.SpawnedInOrderAppend | js/monsterManager.js:24-34 | one more monster placed by the next draw on the list so far keeps every monster of the batch placed by its own draw |
| Monsters.MonsterManager.SpawnStep | js/monsterManager.js:24-34 | one more spawn keeps the earlier monsters and both batch facts (full health and weakest types; placed by its own draw) |
| Monsters.MonsterManager.Splice | js/monsterManager.js:111 | the list loses exactly the entry at the index, the others keep their order, and the removed monster is gone |
| Monsters.MonsterManager.Respawn | js/monsterManager.js:110-123 | the entry at the index is removed and the others keep their order; then either one fresh monster at full health follows them, on the first candidate of the draws free of the shortened list and of the code's type for that cell, or no candidate of the draws was free and the list is just shorter |
| Monsters.MonsterManager.RemoveMonster | js/monsterManager.js:108-124 | an absent monster changes nothing; a present one is removed, the others keep their order, and a fresh monster at full health is appended on the first candidate free of the shortened list, of the code's type for that cell, unless no candidate of the draws was free; the result says whether the list kept its length |
| Combats.PlayerDamageRange | js/combat.js:57 | the player deals from half their power up to less than one and a half times it |
| Combats.MonsterDamageRange | js/combat.js:74 | a monster deals from a third of its power up to less than four thirds of it |
| Combats.CatalogueMonstersHurt | js/combat.js:74 | every catalogue monster's counterattack deals at least one point |
| Combats.Combat.constructor | js/combat.js:2-9 | out of combat, no monster, last attack at time 0 |
| Combats.Combat.InitiateCombat | js/combat.js:55-88 | the blow lands; a monster at zero or below pays its experience, is removed with the respawn `removeMonster` performs, and ends combat; otherwise it strikes back (health not below zero) and the monster list stays; a player at zero ends combat; the player's position and mana never change |
| Combats.Combat.Defeat | js/combat.js:64-71 | the killing blow: the monster loses the player's damage, the player gains its experience and levels up as `gainXP` does, the monster is removed with the respawn `removeMonster` performs, combat ends, and the player's position and mana stay |
| Combats.Combat.Reward | js/combat.js:57-67 | the monster loses exactly the player's damage and the player's sheet becomes the one `gainXP` settles with the monster's experience added; position and mana stay |
| Combats.Combat.StrikeBack | js/combat.js:72-84 | the monster survives the blow and hits back: the player's health drops by the monster's damage but not below zero, nothing else on the sheet changes; a player at zero ends combat, otherwise the combat state stays |
| Combats.Combat.StartCombat | js/combat.js:47-53 | engages the monster, restarts the cooldown clock so that no attack is ready for the next 1000 ms, and exchanges blows once as `initiateCombat` does |
| Combats.Combat.HandleCombatInput | js/combat.js:26-37 | Space attacks only in combat and after the cooldown, and then blocks attacks for the next 1000 ms; otherwise the combat state, the player, the monster list and the engaged monster are all unchanged |
| Combats.Combat.HandleClick | js/combat.js:15-23 | a click attacks only in combat and after the cooldown, and then blocks attacks for the next 1000 ms; otherwise the combat state, the player, the monster list and the engaged monster are all unchanged |
| Rendering.HexValue | js/renderer.js:44-46 | a hex digit's value is below 16 |
| Rendering.HexDigit | js/renderer.js:53-55 | `toString(16)` of a value below 16 is the lower-case digit with that value |
| Rendering.DigitRoundTrip | js/renderer.js:44-55 | a lower-case hex digit survives parsing and printing |
| Rendering.Channel | js/renderer.js:44-46 | each parsed channel lies in `0..255` |
| Rendering.Hex2 | js/renderer.js:53-55 | two lower-case hex digits that parse back to the value |
| Rendering.AdjustColor | js/renderer.js:42-56 | a lower-case `#rrggbb` colour whose channels are the input's shifted by the amount and clamped to `0..255` |
| Rendering.SameChannelsSameColor | js/renderer.js:52-55 | a lower-case colour is determined by its three channels |
| Rendering.SamePair | js/renderer.js:53-55 | two lower-case colours with the same value in one channel have the same two digits there |
| Rendering.LoweredAt | js/renderer.js:52-55 | lower-casing keeps the length and maps each character |
| Rendering.LoweredChannels | js/renderer.js:44-46 | lower-casing a colour keeps its channels |
| Rendering.AdjustByZero | js/renderer.js:42-56 | adjusting by zero only lower-cases the colour |
| Rendering.ClampTwice | js/renderer.js:48-50 | two clamped shifts in the same direction equal one clamped shift by their sum |
| Rendering.ShiftTwice | js/renderer.js:48-50 | one channel shifted twice in the same direction equals that channel shifted once by the sum |
| Rendering.ShiftsCompose | js/renderer.js:42-56 | when all three channels compose, the twice-adjusted colour equals the colour adjusted once by the sum |
| Rendering.AdjustCompose | js/renderer.js:42-56 | two adjustments in the same direction compose into one by the sum |
| Rendering.Pushed | js/renderer.js:25-37 | a colour is collected exactly when some in-bounds neighbour shows it and it is neither water nor sand |
| Rendering.FirstIndex | js/renderer.js:39 | the position of the first occurrence |
| Rendering.FirstIndexPrefix | js/renderer.js:39 | appending after a first occurrence does not move it |
| Rendering.Dedup | js/renderer.js:39 | `[...new Set(colors)]` has no duplicates, the same elements, and keeps first-occurrence order |
| Rendering.Renderer.GetAdjacentTerrainColors | js/renderer.js:21-40 | the distinct colours of the in-bounds orthogonal neighbours except water and sand, in first-seen order; at most four |
| Hud.FirstEmpty | js/hud.js:155 | the lowest empty slot, or -1 exactly when every slot is filled |
| Hud.Filled | js/hud.js:15 | the count of filled slots never exceeds the number of slots |
| Hud.FillOne | js/hud.js:157 | filling one empty slot raises the filled count by exactly one |
| Hud.AssignEffect | js/hud.js:154-164 | assignment fills the lowest empty slot and no other; with all slots full nothing changes |
| Hud.FillsLeftToRight | js/hud.js:154-164 | two assignments on an empty bar fill slots 0 and 1 |
| Hud.Spend | js/hud.js:166-175 | the cost is paid exactly when the mana covers it; otherwise mana is unchanged; mana never goes negative |
| Hud.HUD.constructor | js/hud.js:15 | four empty shortcut slots |
| Hud.HUD.AssignToEmptyShortcut | js/hud.js:154-164 | the slots become the assignment of the old slots; the filled count never drops |
| Hud.HUD.UseAbility | js/hud.js:166-175 | mana becomes the spend of the old mana; nothing else of the player changes |

## Left out

- Drawing, the canvas, the DOM, CSS, event listener wiring, the game loop, the camera and window resizing are not modelled; they hold no game state.
- `Player.move` and the per-frame path following in the game's update loop are not modelled; they are floating-point animation.
- `MonsterManager.update` is not modelled; its body is empty.
- `checkForMonster` is not modelled; it is a floored variant of `getMonsterAt`, and monster coordinates are integers here.
- Monster symbols, ability icons, console logging, combat-log messages and `toggleMenu` are not modelled; they are display only.
- Monsters.MonsterManager.GetRandomPassablePosition: the game retries in `while (true)`; the model takes a finite list of candidate draws and returns nothing when all of them fail, which `Spawn`, `SpawnMonsters` and `RemoveMonster` report.
- Monsters.MonsterManager.GetRandomPassablePosition: on maps narrower or shorter than 2 the game reads outside the map and throws; the model treats such candidates as not free.
- TerrainSpec.AttemptCount: `Math.floor(width * height * 0.025)` is modelled as `width * height / 40` in exact arithmetic; binary floating-point rounding is not modelled.
- Players.Grow12: `Math.floor(n * 1.2)` is modelled in exact arithmetic; where binary rounding of `1.2` moves a product across an integer, the game may differ by one.
- TerrainSpec.SmallPondShape: `Math.sqrt` comparisons are modelled as exact comparisons of squared distances.
- Rendering.AdjustColor: requires a well-formed `#rrggbb` colour; the `NaN` results of `parseInt` on malformed colours are not modelled.
- TerrainGeneration.TerrainGenerator.CreateWaterBody: takes one jitter draw per square offset, including offsets outside the map where the game draws nothing; only the draw order differs.
- Players.Player.TakeDamage: amounts are integers; fractional damage is not modelled.
- A map with no rows would make the game throw on `terrain[0].length`; the model treats it as having no valid position.

## Findings

| source | as written | input that shows it | evidently intended | confidence | as-written member | corrected member |
|---|---|---|---|---|---|---|
| js/monsterManager.js:43-64 | map tiles are compared with `===` against the catalogue objects in `terrainTypes`, but every map cell is a spread or JSON copy, never the catalogue object itself; `SWAMP` does not exist | any generated map, for example a monster position on or next to a mountain | compare by terrain kind, giving cap 10 near mountains and 7 near hills | not executed | Monsters.MonsterManager.AsWrittenCapIsThree | Monsters.MonsterManager.CapByTerrain |

Because of this, `getMonsterTypeForPosition` as written only ever picks from
the first three catalogue entries. `Monsters.MonsterManager.LevelCapAsWritten`
computes the cap the way the code does, and the spawn path (`Spawn`,
`SpawnMonsters`, `RemoveMonster`) uses it, as the game does;
`AsWrittenSpawnsWeakest` proves the consequence. The corrected cap is
`LevelCap`, and `GetMonsterTypeForPosition` takes the tests as a parameter,
so with `KindTests` it draws from the whole catalogue
(`ByKindNearMountainTop`).
