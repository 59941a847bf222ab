# Zombie survival: engine layer in Dafny

This project models the engine layer of a browser zombie-survival game. It is written against the game's JavaScript sources. It covers:

- the entity/component system: `Entity`, `Component` and the `EntityManager` that names entities, keeps the active ones and updates them each frame;
- the spatial hash grid, which answers "who is near this point", and the component that keeps an entity's grid client in step with its position;
- the finite state machine and the player's states (idle, walk, run, attack, death) driven by the keyboard flags of the player input component;
- the inventory's 24 bag slots and 8 equipment slots;
- health, damage, death and experience/level-up;
- the attacker's timed strike on nearby living entities.

Each source file is one module. Objects whose fields the game updates in place are Dafny classes with `modifies` frames:

- `Entity`, `Component`, `EntityManager`;
- `SpatialHashGrid`, `SpatialGridController`;
- `FiniteStateMachine`;
- `CharacterControllerInput`;
- `InventoryController`, `HealthComponent`, `AttackController`, `AttackState`.

Each of these classes is proved against value-level functions: `Registered`, `Calls`, `AfterSetState`, `AfterExperience`, `FirstFillable`, `Swapped`, `HitsOf`, `Near`, and so on. The lemmas state the game's promises about those functions.

Effects that leave an object are recorded, not executed:

- An entity's handler calls and component updates go into its `trace`, as `HandlerCalled`/`ComponentUpdated` events. Handlers are identified by an id.
- A state machine's `Enter`/`Exit`/`Update` hook calls go into the machine's `trace`.
- Health's broadcasts and its level-up spawn go into an `outbox`.
- The attacker's damage messages are returned as a list of `Hit`s.
- The inventory's equip broadcast and `FindEntity` lookup are returned as values.

Calls into code this model cannot see become parameters:

- the frame's elapsed time;
- the set of nearby entities with their health;
- the weapon's damage multiplier;
- the "is the target in front of me" test;
- the item name carried by a message.

The grid's cells are an `array2` of client-id lists; the source uses doubly linked lists. Clients live in an arena (`clients`), indexed by `ClientId`. Positions are Dafny `real`s. The cell index uses `.Floor` exactly where the source uses `Math.floor`, and `Math.round` is `Floor(x + 0.5)`.

Where the code and its accompanying description differ, the model follows the code. In particular:

- `SetState` with an unknown name has already run `Exit` on the old state when `new undefined` throws. The model returns `Fail(UnknownState(name))` with the `Exited` hook already recorded and the old state still current.
- An empty item name `""` counts as an empty slot, as JavaScript's `!value` makes it.
- `EntityManager.Add` with name `""` generates a name, for the same reason.
- A blow to an entity that is already dead announces `health.death` again (`Health.DeadDiesAgain`).

## Model

| member | source | states |
|---|---|---|
| MathUtil.Lerp | src/math.js:22-24 | weight 0 gives the start, weight 1 the end |
| MathUtil.LerpBetween | src/math.js:22-24 | a weight in [0,1] keeps the result between the two ends |
| MathUtil.Smoothstep | src/math.js:27-30 | the eased interpolation starts at `a` and ends at `b` |
| MathUtil.SmoothstepBetween | src/math.js:27-30 | the easing curve stays in [0,1] on [0,1], so the result stays between the ends |
| MathUtil.Smootherstep | src/math.js:33-36 | the quintic easing starts at `a` and ends at `b` |
| MathUtil.Clamp | src/math.js:39-41 | the result lies in [a,b]; values inside are unchanged; values below give `a`, above give `b`; an empty interval (a > b) always gives `b` |
| MathUtil.Sat | src/math.js:44-46 | saturation lands in [0,1] and fixes every value already there |
| MathUtil.SatMonotone | src/math.js:44-46 | saturation never reverses order |
| MathUtil.InRangeIffClampFixes | src/math.js:49-51 | `in_range` holds exactly when clamping leaves the value unchanged, so both ends are inclusive |
| MathUtil.Round | src/health-component.js:56 | `Math.round` picks the integer within half a unit, with halves rounded up |
| MathUtil.RoundInteger | src/attacker-controller.js:92 | rounding an integer gives it back |
| Sequences.IndexOf | src/entity-manager.js:45 | `indexOf` gives the first position of the element, or -1 exactly when it is absent |
| Sequences.RemoveFirst | src/entity-manager.js:45-50 | `splice(indexOf(e), 1)` shortens the list by one occurrence, and changes nothing when `e` is absent |
| Sequences.RemoveFirstIsWithout | src/entity-manager.js:44-51 | without duplicates, removing the first occurrence removes every occurrence and keeps the others in order |
| Sequences.Filter | src/entity-manager.js:23-25 | `Array.filter` keeps exactly the elements passing the test, and no more of them than there were |
| Sequences.Dedup | src/spatial-hash-grid.js:88-96 | every scanned client is reported exactly once, and nothing else is reported |
| SpatialHash.AxisIndex | src/spatial-hash-grid.js:19-26 | the saturated, floored axis index always lies in [0, d-1], even for points far outside the bounds |
| SpatialHash.CellIndex | src/spatial-hash-grid.js:17-29 | every position, in bounds or not, maps to a cell of the grid |
| SpatialHash.AxisIndexBelow | src/spatial-hash-grid.js:19-25 | points at or below the lower bound land in the first cell |
| SpatialHash.AxisIndexLast | src/spatial-hash-grid.js:25-26 | with two or more cells on the axis, the last cell is reached exactly at or beyond the upper bound |
| SpatialHash.AxisIndexMonotone | src/spatial-hash-grid.js:19-26 | the cell index never decreases as the coordinate grows |
| SpatialHash.CellRangeOrdered | src/spatial-hash-grid.js:108-109 | for a non-negative extent the minimum cell is at or below the maximum cell on both axes |
| SpatialHash.NodeTableShape | src/spatial-hash-grid.js:111-126 | `_Insert`'s node table has one row per x cell of the range, one node per y cell, and node (i,j) belongs to cell (min.x+i, min.y+j) |
| SpatialHash.StampedQuery | src/spatial-hash-grid.js:92-95 | after a query a client carries that query's id exactly when it was reported |
| SpatialHash.StampedOnlyStamps | src/spatial-hash-grid.js:92-93 | a query changes nothing in a client record but its stamp |
| SpatialHash.LinkCell | src/spatial-hash-grid.js:128-133 | pushing a node at the head of a cell keeps the cell in agreement with the client records |
| SpatialHash.UnlinkCell | src/spatial-hash-grid.js:156-165 | unlinking a client from a cell keeps the cell in agreement with the cleared record |
| SpatialHash.SpatialHashGrid.constructor | src/spatial-hash-grid.js:7-14 | the grid has `dimensions` cells, all empty, no clients, and the query counter at 0 |
| SpatialHash.SpatialHashGrid.NewClient | src/spatial-hash-grid.js:32-47 | a fresh, unstamped client is appended and pushed at the head of every cell its box covers; every other cell and record is unchanged |
| SpatialHash.SpatialHashGrid.SetClientPosition | src/spatial-grid-controller.js:38 | writing a client's position changes only that field and keeps the grid consistent |
| SpatialHash.SpatialHashGrid.SetClientEntity | src/spatial-grid-controller.js:29 | tagging a client with its entity changes only that field and keeps the grid consistent |
| SpatialHash.SpatialHashGrid.Insert | src/spatial-hash-grid.js:103-141 | the client records its cell range and is pushed at the head of exactly the cells in that range |
| SpatialHash.SpatialHashGrid.Remove | src/spatial-hash-grid.js:144-173 | the client leaves every cell, the other clients keep their order in each cell, and the client records no cells |
| SpatialHash.SpatialHashGrid.UpdateClient | src/spatial-hash-grid.js:50-68 | if the cell range is unchanged nothing moves; otherwise the client is removed and re-inserted at its new range |
| SpatialHash.SpatialHashGrid.Restamp | src/spatial-hash-grid.js:92-93 | stamping the reported clients with the new query id keeps the grid consistent |
| SpatialHash.SpatialHashGrid.ScanColumnMembers | src/spatial-hash-grid.js:84-97 | a client appears in a column scan exactly when it is linked into one of the column's cells |
| SpatialHash.SpatialHashGrid.ScanBoxMembers | src/spatial-hash-grid.js:83-98 | a client appears in a box scan exactly when it is linked into one of the box's cells |
| SpatialHash.SpatialHashGrid.ScanFindsOverlapping | src/spatial-hash-grid.js:80-98 | a client is found exactly when it is placed and its recorded range shares a cell with the query range |
| SpatialHash.SpatialHashGrid.ScannedOverlaps | src/spatial-hash-grid.js:83-91 | every client met in a cell of the query range has a recorded range that shares a cell with it |
| SpatialHash.SpatialHashGrid.OverlappingScanned | src/spatial-hash-grid.js:83-91 | every placed client whose recorded range shares a cell with the query range is met by the scan |
| SpatialHash.SpatialHashGrid.StampedFindsOverlapping | src/spatial-hash-grid.js:88-96 | stamping the results does not change which clients overlap the query |
| SpatialHash.SpatialHashGrid.ScanCell | src/spatial-hash-grid.js:88-96 | walking one cell extends the result to the deduplicated scan so far, and stamps exactly the clients reported |
| SpatialHash.SpatialHashGrid.ScanColumnCells | src/spatial-hash-grid.js:84-97 | the inner loop reports the deduplicated clients of the column's cells |
| SpatialHash.SpatialHashGrid.ScanBoxCells | src/spatial-hash-grid.js:83-98 | the double loop reports the deduplicated clients of the box's cells |
| SpatialHash.ScanStep | src/spatial-hash-grid.js:88-95 | a client met during a scan is reported and stamped exactly when it is not yet stamped, keeping the result the deduplicated scan so far |
| SpatialHash.SpatialHashGrid.ScanFinished | src/spatial-hash-grid.js:88-99 | after a finished scan the grid is consistent under the next query id and the report holds exactly the overlapping clients |
| SpatialHash.SpatialHashGrid.FindNear | src/spatial-hash-grid.js:71-100 | the query id advances by one, the result is the deduplicated scan of the query box, a client is in it exactly when its range overlaps the query range, and only stamps change |
| SpatialGridControl.Others | src/spatial-grid-controller.js:51 | the filter keeps exactly the found clients that do not belong to the asking entity |
| SpatialGridControl.OthersNoDup | src/spatial-grid-controller.js:51 | the filtered result still lists each client once |
| SpatialGridControl.OthersDropsOwnClient | src/spatial-grid-controller.js:51 | when the entity owns one client, the filter removes exactly that client, keeping the others in order |
| SpatialGridControl.SpatialGridController.constructor | src/spatial-grid-controller.js:10-15 | the controller keeps the shared grid and has no client yet |
| SpatialGridControl.SpatialGridController.InitComponent | src/spatial-grid-controller.js:18-33 | a client is created at the entity's ground point with a 1x1 box and tagged with the entity; it is pushed at the head of exactly the cells its box covers, every other cell is unchanged, and the position handler is registered |
| SpatialGridControl.SpatialGridController.OnPosition | src/spatial-grid-controller.js:36-42 | only this entity's client changes (position and range; entity, size and query stamp are kept); when the range is unchanged no cell changes, otherwise the client leaves every cell and is pushed at the head of exactly the cells of its new range, the other clients keeping their order |
| SpatialGridControl.SpatialGridController.FindNearbyEntities | src/spatial-grid-controller.js:45-52 | reports each client whose range overlaps the box of side `range` centred on the entity, minus the entity's own, once each |
| Entities.Registered | src/entity.js:28-33 | the handler goes at the end of its topic's list, creating the list if needed; other topics are untouched |
| Entities.CallsOf | src/entity.js:104-106 | a broadcast calls the topic's handlers once each, in registration order |
| Entities.Calls | src/entity.js:99-107 | a topic with no handlers calls nothing; otherwise one call per registered handler |
| Entities.RegisterThenBroadcast | src/entity.js:28-33 | after registering a handler, a broadcast on its topic calls the old handlers and then the new one; other topics are unaffected |
| Entities.UpdateEventsAt | src/entity.js:138-140 | the i-th update goes to the i-th component in insertion order |
| Entities.UpdateRunsEachOnce | src/entity.js:137-141 | one `Update` updates every component exactly once |
| Entities.Component.constructor | src/entity.js:148-150 | a new component has its class name and no parent |
| Entities.Component.SetParent | src/entity.js:156-158 | the component belongs to the given entity |
| Entities.Component.GetComponent | src/entity.js:170-172 | a component looks up siblings through its parent |
| Entities.Component.Broadcast | src/entity.js:187-189 | a component's broadcast is its parent's broadcast |
| Entities.Component.RegisterHandler | src/entity.js:202-204 | a component registers handlers on its parent |
| Entities.Entity.constructor | src/entity.js:12-21 | a new entity has no name, components or handlers, sits at the origin and has the identity rotation |
| Entities.Entity.SetName | src/entity.js:47-49 | the entity takes the name |
| Entities.Entity.RegisterHandler | src/entity.js:28-33 | the entity's handler table becomes `Registered` of the old one |
| Entities.Entity.GetComponent | src/entity.js:82-84 | a component is found exactly when one of that class name was added |
| Entities.Entity.AddComponent | src/entity.js:71-75 | the component is parented and stored under its class name, replacing one of the same name, and initialised once; nothing else changes |
| Entities.Entity.Broadcast | src/entity.js:99-107 | the topic's handlers are called once each, in order |
| Entities.Entity.SetPosition | src/entity.js:113-119 | the position is stored and then broadcast on `update.position` |
| Entities.Entity.SetQuaternion | src/entity.js:125-131 | the rotation is stored and then broadcast on `update.rotation` |
| Entities.Entity.Update | src/entity.js:137-141 | every component is updated once, in insertion order, with the frame time |
| EntityManagement.Decimal | src/entity-manager.js:13 | a number's decimal text is non-empty digits with no leading zero |
| EntityManagement.ParseDecimalOfDecimal | src/entity-manager.js:13 | reading a number's decimal text gives the number back |
| EntityManagement.DecimalInjective | src/entity-manager.js:13 | different numbers have different decimal texts |
| EntityManagement.GeneratedNamesDistinct | src/entity-manager.js:11-14 | generated names `__name__N` never repeat |
| EntityManagement.SetActiveRemovesOnly | src/entity-manager.js:44-51 | deactivating an entity in a duplicate-free list removes exactly that entity and keeps the others in order |
| EntityManagement.EntityManager.constructor | src/entity-manager.js:4-8 | the counter is 0, there are no entities and none has been updated |
| EntityManagement.EntityManager.GenerateName | src/entity-manager.js:11-14 | the counter advances by one and the name is built from the new value |
| EntityManagement.EntityManager.Get | src/entity-manager.js:17-19 | lookup finds exactly the names that were registered |
| EntityManagement.EntityManager.Filter | src/entity-manager.js:23-25 | the result holds exactly the active entities passing the test |
| EntityManagement.EntityManager.Add | src/entity-manager.js:29-41 | a missing or empty name is generated; the entity is registered under its name, named and appended to the active list |
| EntityManagement.EntityManager.SetActive | src/entity-manager.js:44-51 | whatever the flag says, the entity's first occurrence is removed from the active list, and nothing happens when it is not listed; the name table is untouched |
| EntityManagement.EntityManager.Update | src/entity-manager.js:55-59 | the active entities are visited in list order (the visit log grows by the list), and each updates all its components once per occurrence in the list |
| StateMachine.AfterAddState | src/finite-state-machine.js:18-20 | registering stores the state class under its name and changes nothing else |
| StateMachine.AfterUpdate | src/finite-state-machine.js:55-59 | a tick reaches the current state's `Update` and nothing else; without a current state nothing happens |
| StateMachine.SetStateSameIsNoop | src/finite-state-machine.js:32-35 | switching to the current state's name does nothing |
| StateMachine.SetStateSwitches | src/finite-state-machine.js:37-46 | switching to another registered name exits the old state, builds the new one and enters it with the old one as previous |
| StateMachine.SetStateUnknownFails | src/finite-state-machine.js:41 | switching to an unregistered name fails after exiting the old state, which stays current |
| StateMachine.SetStateIdempotent | src/finite-state-machine.js:27-47 | switching twice to the same registered name equals switching once |
| StateMachine.StaysSet | src/finite-state-machine.js:44 | once a current state exists (the machine starts without one), every later sequence of operations leaves a current state in place |
| StateMachine.StepNumbered | src/finite-state-machine.js:41 | each operation keeps every built state numbered by build order |
| StateMachine.RunNumbered | src/finite-state-machine.js:41 | any sequence of operations keeps the states numbered by build order |
| StateMachine.SwitchBuildsNewState | src/finite-state-machine.js:41 | a switch builds a new state instance, distinct from every earlier one |
| StateMachine.FiniteStateMachine.constructor | src/finite-state-machine.js:6-11 | no states are registered and none is current |
| StateMachine.FiniteStateMachine.AddState | src/finite-state-machine.js:18-20 | the machine becomes `AfterAddState` of the old one |
| StateMachine.FiniteStateMachine.SetState | src/finite-state-machine.js:27-47 | the machine and the outcome are `AfterSetState` of the old machine |
| StateMachine.FiniteStateMachine.Update | src/finite-state-machine.js:55-59 | the machine becomes `AfterUpdate` of the old one |
| PlayerInput.KeyOf | src/player-input.js:95-114 | exactly the six key codes 87, 65, 83, 68, 32 and 16 map to a movement flag |
| PlayerInput.KeyCodesInverse | src/player-input.js:94-115 | each flag has a key code and that code maps back to the flag |
| PlayerInput.ReleasedHoldsNothing | src/player-input.js:32-39 | all six flags start released |
| PlayerInput.KeyDownSetsOne | src/player-input.js:94-115 | a key press sets its flag and leaves the other five alone; other keys change nothing |
| PlayerInput.KeyUpClearsOne | src/player-input.js:118-139 | a key release clears its flag and leaves the other five alone |
| PlayerInput.OneFlagPerEvent | src/player-input.js:94-139 | a press or release changes at most one flag |
| PlayerInput.KeyDownIdempotent | src/player-input.js:94-115 | a repeated press changes nothing more |
| PlayerInput.KeyUpUndoesKeyDown | src/player-input.js:94-139 | releasing a key right after pressing it restores the flags, when the key was not already held |
| PlayerInput.CharacterControllerInput.constructor | src/player-input.js:31-39 | the input starts with every flag released |
| PlayerInput.CharacterControllerInput.OnKeyDown | src/player-input.js:94-115 | the flags become `KeyDown` of the old flags |
| PlayerInput.CharacterControllerInput.OnKeyUp | src/player-input.js:118-139 | the flags become `KeyUp` of the old flags |
| PlayerStates.FromName | src/player-state.js:25-27 | a recognised name always belongs to the state it names |
| PlayerStates.NamesRoundTrip | src/player-state.js:211-213 | state names are distinct and read back as their state |
| PlayerStates.Request | src/player-state.js:143-152 | a state never asks for itself, and attack and death never ask for anything |
| PlayerStates.MovementBeatsSpace | src/player-state.js:234-240 | an idle player who moves starts walking even while space is held |
| PlayerStates.StableStates | src/player-state.js:193-202 | a state stays put exactly when: walking with movement and no shift, running with movement and shift, idle with neither movement nor space; attack and death always stay put |
| PlayerStates.SettlesWithinTwoTicks | src/player-state.js:234-240 | with the keys held steady, the state reached after two ticks asks for nothing more |
| PlayerStates.TickFollowsRequest | src/finite-state-machine.js:55-59 | a frame of the player's machine never fails and lands in the state asked for; a switch follows the update hook with exit then enter |
| PlayerStates.TicksSettle | src/player-state.js:193-202 | from the third frame on, the current state stays put while the keys are steady |
| PlayerStates.AddListener | src/player-state.js:69 | the listener is registered once, whatever was there before |
| PlayerStates.ListenerRoundTrip | src/player-state.js:92-100 | adding then removing the attack's `finished` listener leaves the other listeners as they were, in order |
| PlayerStates.AttackState.constructor | src/player-state.js:53-59 | a new attack state has no animation bound |
| PlayerStates.AttackState.Enter | src/player-state.js:66-70 | binds the attack mixer and listens for its `finished` event |
| PlayerStates.AttackState.Cleanup | src/player-state.js:92-96 | when an animation is bound, the listener is removed |
| PlayerStates.AttackState.Exit | src/player-state.js:98-100 | leaving the attack removes the listener |
| PlayerStates.AttackState.Finished | src/player-state.js:86-89 | when the attack finishes, the listener is removed and the machine switches to idle |
| Inventory.FirstFillableFrom | src/inventory-controller.js:105-116 | finds the first empty bag slot at or after `k`, or reports that there is none |
| Inventory.FirstFillable | src/inventory-controller.js:105-116 | finds the first empty bag slot, or reports that every bag slot is full |
| Inventory.AddNeverEquips | src/inventory-controller.js:106 | a picked-up item never lands in an equipment slot |
| Inventory.Swapped | src/inventory-controller.js:68-77 | a drop exchanges the two slots' items; every slot keeps its kind and every other slot is unchanged |
| Inventory.SwapUndone | src/inventory-controller.js:68-77 | dragging an item back undoes the drop, and dropping on itself does nothing |
| Inventory.AddKeepsLayout | src/inventory-controller.js:100 | adding an item keeps 24 bag slots followed by 8 equipment slots |
| Inventory.AddAdvances | src/inventory-controller.js:104-116 | after one non-empty item is added, the next one goes to a later slot |
| Inventory.InventoryController.constructor | src/inventory-controller.js:12-28 | 24 empty bag slots followed by 8 empty equipment slots |
| Inventory.InventoryController.SetItemAtSlot | src/inventory-controller.js:90-101 | only the named slot's item changes |
| Inventory.InventoryController.OnInventoryAdded | src/inventory-controller.js:104-117 | the item goes into the first empty bag slot, if any; otherwise the inventory is unchanged and the item is not added |
| Inventory.InventoryController.OnItemDropped | src/inventory-controller.js:68-87 | the two slots are swapped; a drop onto an equipment slot announces the item that moved there |
| Inventory.InventoryController.GetItemByName | src/inventory-controller.js:120-127 | the item entity is looked up exactly when some slot holds that name |
| Health.XPRequirementDoubles | src/health-component.js:53-58 | level 1 needs 100 experience, and each level needs twice the previous |
| Health.ExperienceLevelsOnce | src/health-component.js:61-88 | one award raises the level by at most one and the stats with it, and announces exactly the level-ups it makes |
| Health.ExperiencesAccumulate | src/health-component.js:61-75 | experience from a series of awards adds up |
| Health.Damaged | src/health-component.js:108 | health never drops below zero; it reaches zero exactly when the blow is at least the health |
| Health.DamageNoticesOrder | src/health-component.js:91-123 | a blow always ends with `health.update`; death is announced exactly at zero health, after the attacker's `level * 100` reward |
| Health.DeadDiesAgain | src/health-component.js:106-113 | a blow to a dead entity announces its death again |
| Health.HealthComponent.constructor | src/health-component.js:9-14 | health, maximum and stats come from the parameters and nothing has been sent |
| Health.HealthComponent.OnDeath | src/health-component.js:91-103 | the attacker, if any, is rewarded first, then the death is announced |
| Health.HealthComponent.OnDamage | src/health-component.js:106-123 | health drops by the blow, floored at zero; `IsAlive` holds afterwards exactly when the old health exceeded the blow; the notices are those of `DamageNotices` |
| Health.HealthComponent.OnAddExperience | src/health-component.js:61-88 | stats and notices are those of `AfterExperience` |
| Attacking.AfterAction | src/attacker-controller.js:27-34 | the timer follows the current action and the time into it |
| Attacking.NoStrikeAfterTiming | src/attacker-controller.js:37 | once an action is past the strike time, it strikes no more |
| Attacking.StrikesAtMostOnce | src/attacker-controller.js:37 | one animation strikes at most once while its time runs forward |
| Attacking.Targets | src/attacker-controller.js:56-69 | targets are exactly the nearby entities, other than the attacker, that have health and are alive |
| Attacking.Damage | src/attacker-controller.js:88-93 | bare-handed damage is the strength; with a weapon it is strength times the multiplier, rounded to the nearest integer |
| Attacking.UnitWeaponDealsStrength | src/attacker-controller.js:88-93 | a weapon with multiplier 1 deals exactly the strength |
| Attacking.HitsOfTargets | src/attacker-controller.js:75-105 | a hit goes to exactly the targets in front of the attacker, each with the damage computed from the strength at the start of the strike |
| Attacking.OnlyAttackableHit | src/attacker-controller.js:56-69 | only living entities other than the attacker are ever hit |
| Attacking.AttackController.constructor | src/attacker-controller.js:11-16 | the controller starts with no action and zero time |
| Attacking.AttackController.OnAnimAction | src/attacker-controller.js:25-107 | the timer advances; at the strike moment every facing, living, nearby target is hit once with the damage computed from the strength at the start of the strike, and otherwise nothing is hit |

## Left out

- Rendering, the DOM and UI: `_UpdateUI`, inventory icons and drag-and-drop wiring, health bars, the camera and particles. They are presentation only.
- Floating-point arithmetic: positions, health and damage are exact `real`s, so NaN, infinities and rounding error are not modelled.
- three.js vector and quaternion math. The attacker's "target is in front" test is a parameter (`facing`). An entity's position and rotation are plain values.
- Re-entrant dispatch: broadcasts, state hooks and component updates are recorded as events. The handlers and hooks themselves are not run. Handler closures are ids.
- The grid's doubly linked node lists are per-cell lists of client ids, most recent first. Node objects and their `next`/`prev` pointers are not modelled.
- SpatialHash.SpatialHashGrid.constructor: requires positive cell counts and bounds with min < max on each axis, following the documented `[[minX, minY], [maxX, maxY]]` form. The source itself only breaks when min == max on an axis (a division by zero) or a cell count is 0 (an index of -1); an inverted box still yields indices in range and is not modelled.
- SpatialHash.SpatialHashGrid.Remove: requires the client to be placed, as does `UpdateClient`. The source dereferences a null range otherwise.
- SpatialGridControl.SpatialGridController.FindNearbyEntities: returns the clients' ids, not the entities. The entity of each is the `entity` field of its client record.
- The entity's back-reference to its manager is not modelled because it would form a module cycle. This covers `Entity.SetParent`, `Entity.FindEntity`, `Entity.SetActive`, `Entity.Parent` and the `e.SetParent(this)` inside `EntityManager.Add`. `FindEntity` is `EntityManager.Get`, and `Entity.SetActive` is `EntityManager.SetActive`.
- Inventory.InventoryController.SetItemAtSlot: does not model the icon lookup or the `FindEntity` of the item, which only touch the UI.
- Inventory.InventoryController.GetItemByName: returns `FindEntity(name)` instead of the entity found, because the manager lookup is outside this module.
- Inventory.InventoryController.OnInventoryAdded: a message with `added` unset is shown as `false`.
- StateMachine.FiniteStateMachine.Update: the `input` argument is only passed through to the state, so it is not modelled.
- PlayerStates.AttackState.Enter: does not model the animation reset, loop mode or cross-fade from the previous state's animation.
- The animation mixer's listener list belongs to the animation library, which is not part of this model. Its `addEventListener` is assumed to add a listener only when absent.
- The level-up spawner (level-up-component.js) is not part of this model. `_OnAddExperience` records a `LevelUpSpawned` notice in its place.
- Attacking.AttackController.OnAnimAction: the component lookups (`HealthComponent`, `InventoryController`, weapon item) come in as parameters (`nearby`, `weapon`). Their health is given as a value.
- Attacking.AttackController.OnAnimAction: reads the attacker's strength once per strike, where the source reads it again for each target. A kill delivered to an earlier target can level the attacker up and raise its strength before the next target's damage is computed, so the source can hit later targets harder in the same strike; the model gives every target of a strike the same damage.
- Counters are unbounded `nat`s. The source's `_ids` and `_queryIds` are JavaScript numbers, which stop growing at 2^53: past that, generated names would repeat and every `FindNear` would find each client already stamped and report nothing. Neither counter gets near that bound in play.
- Name tables are maps that start empty. The source's `_handlers`, `_components`, `_entitiesMap` and `_states` are plain objects, so inherited keys such as `constructor` or `toString` count as present there (registering a handler under `constructor` throws, `Get('toString')` returns a function). The names the game uses never hit these keys.
- Player mouse picking (`_onMouseUp`, `PickableComponent`), the third-person camera and NPC controllers are not part of this model.
