# Breakfast Bonanza core, modelled in Dafny

Breakfast Bonanza is a breakfast-cooking game. The player drags raw food onto a stove or a toaster, then onto plates, and serves customers the dishes they order. A two-player mode pairs players through a socket server. This project models the game's core rules and the server's room coordination, and proves properties of them.

- **The menu and the cooking tables** (`menuList`, `cookedList`) are constant tables with facts proved about them: each dish's `'&'`-joined ingredients, the 300 points per dish, the level-2 dishes, and each food's raw/cooked/burnt stages.
- **The plate rules.**
  - `settingPlateRules` decides whether a food may go onto a plate: no duplicates, and no toast on a hot dog, egg or bacon.
  - `checkIsPlateFull` decides whether a plate holds exactly some dish's ingredients. Its split-on-`'&'`-and-sort comparison is proved to mean "same multiset as some dish".
- **The `plate` store slice** is a class with one field per piece of state and one method per reducer.
  - `autoPlateSystem` and `autoJamSystem` are first-fit loops over the plates. They return the `addFood` action they would dispatch.
- **The cooking station handlers** (`onDragEnter`, `onDrop`, `passToPlate`) are methods of a `Station` class holding the component's React state.
- **The `customer` and `gameConfig` store slices** are classes whose methods are the reducers.
- **`calculateRanking`** is a pure function. It re-sorts the top-N leaderboard with JavaScript's stable sort, cuts it and re-ranks it.
- **The socket server's room coordinator.**
  - Authentication, `createRoom`, `joinRoom`, `playerReady`, `gameStart`, `scoreUpdate`, `gameEnd` and `disconnect` are modelled over the three tables `rooms`, `userRooms` and `roomHosts`.
  - Every state change is a step function from tables to tables, plus the emitted messages. A `Coordinator` class updates the tables in place and is proved to agree with those functions.
  - An invariant shows that rooms hold one or two distinct players and that each room's host entry matches it. It holds for every sequence of requests.

Some JavaScript behaviour that the rules depend on is modelled explicitly:
- truthiness;
- `===` on `undefined`, `null` and strings;
- `String.prototype.split`, and the default `Array.prototype.sort` order;
- the stable comparator sort;
- the property names every plain object inherits from `Object.prototype`. Looking such a name up in `rooms` or in the rules object yields a truthy value, not `undefined`.

## Model

| member | source | states |
|---|---|---|
| Js.InheritedKeysNotUpperBase36 | apps/socket-server/server.js:118-120 | every property name plain objects inherit contains a character `generateRoomId` can never produce |
| JsArray.JoinSplit | apps/web/helpers/checkIsPlateFull.js:6 | joining the pieces of `s.split(sep)` with `sep` gives `s` back |
| JsArray.SplitJoin | apps/web/helpers/checkIsPlateFull.js:6 | splitting a join of separator-free pieces gives the pieces back |
| JsArray.LexLeTotal | apps/web/helpers/checkIsPlateFull.js:6 | the default sort order on strings compares any two strings |
| JsArray.LexLeTransitive | apps/web/helpers/checkIsPlateFull.js:6 | the default sort order is transitive |
| JsArray.SortSpec | apps/web/helpers/checkIsPlateFull.js:6 | `sort()` returns a sorted permutation of its input |
| JsArray.SortedUnique | apps/web/helpers/checkIsPlateFull.js:10 | two sorted permutations of the same elements are equal |
| JsArray.SortEqualIffSameElements | apps/web/helpers/checkIsPlateFull.js:9-11 | two lists sort to the same list exactly when they hold the same elements with the same multiplicities |
| MenuList.Ingredients | apps/web/contents/menuList.js:15-17 | the projection has one entry per dish, each that dish's ingredient string |
| MenuList.MenuTableShape | apps/web/contents/menuList.js:1-13 | eleven dishes, each worth 300, the last five of them level-2 dishes |
| MenuList.MenuListProjection | apps/web/contents/menuList.js:15-18 | `menuList` lists every dish's ingredient string in table order |
| MenuList.PartsTable | apps/web/contents/menuList.js:2-12 | each dish's ingredient string splits on `'&'` into the listed parts |
| MenuList.AscendingDistinct | apps/web/contents/menuList.js:2-12 | a strictly ascending list holds no element twice |
| MenuList.DishPartsAscending | apps/web/contents/menuList.js:2-12 | every dish lists its ingredients in strictly ascending order, so none twice |
| CookedList.StoveListShape | apps/web/contents/cookedList.js:1-17 | the stove cooks egg, hot dog and bacon; the default export is the stove list |
| CookedList.ToasterListShape | apps/web/contents/cookedList.js:19-25 | the toaster turns `toast0` into `toast` and then burns it to `toast2` |
| CookedList.InitsDistinct | apps/web/contents/cookedList.js:1-25 | no two groups of a table share a raw value, so a dragged raw food picks one group |
| CookedList.OverValuesMarked | apps/web/contents/cookedList.js:1-25 | every burnt value carries the mark `'2'` |
| PlateRules.SettingPlateRules | apps/web/helpers/settingPlateRules.js:6-15 | a food already on the plate is refused; toast is refused on a plate starting with hot dog, egg or bacon; nothing else is refused except inherited property names |
| PlateRules.EmptyPlateAccepts | apps/web/helpers/settingPlateRules.js:6-15 | an empty plate accepts every food |
| PlateRules.OnlyToastHasARule | apps/web/helpers/settingPlateRules.js:3-9 | a food other than toast is refused exactly when it is already on the plate |
| PlateRules.ToastRule | apps/web/helpers/settingPlateRules.js:1-9 | toast is refused exactly when it is already there or the plate's first food is hot dog, egg or bacon |
| PlateRules.SortedDishesComputed | apps/web/helpers/checkIsPlateFull.js:5-7 | the comparison list is every dish split on `'&'` and sorted |
| PlateRules.CheckIsPlateFullSpec | apps/web/helpers/checkIsPlateFull.js:4-12 | the contract of `PlateRules.CheckIsPlateFull`, the model of `checkIsPlateFull`: a plate is full exactly when it holds some dish's ingredients, in any order, each as often as the dish lists it |
| PlateRules.FullIgnoresOrder | apps/web/helpers/checkIsPlateFull.js:9-11 | rearranging a plate does not change whether it is full |
| PlateRules.EmptyPlateNotFull | apps/web/helpers/checkIsPlateFull.js:4-12 | an empty plate is never full |
| PlateRules.RepeatedItemNotFull | apps/web/helpers/checkIsPlateFull.js:4-12 | a plate holding some food twice is never full |
| Plates.EmptyPlates | apps/web/store/features/plateSlice.js:6-9 | plates `1..MAX_PLATE` exist, all empty, and no others |
| Plates.PlateSlice.constructor | apps/web/store/features/plateSlice.js:11-17 | the initial state: empty plates, status `idle`, empty dragged item and plate |
| Plates.PlateSlice.AddFood | apps/web/store/features/plateSlice.js:23-31 | a missing plate or an empty item resets the plate to empty, otherwise the item goes on top; no other plate and no other field changes |
| Plates.PlateSlice.SetTargetItem | apps/web/store/features/plateSlice.js:32-35 | only the dragged item changes |
| Plates.PlateSlice.SetTargetPlate | apps/web/store/features/plateSlice.js:36-39 | only the dragged-from plate changes |
| AutoPlace.AutoPlateSystem | apps/web/helpers/autoPlateSystem.js:5-18 | nothing is dispatched unless the food is done; otherwise the food goes onto the first plate that accepts it and is not full, and nothing is dispatched only when no plate does |
| AutoPlace.AutoJamSystem | apps/web/helpers/autoJamSystem.js:3-14 | jam goes onto the first plate holding a lone toast, and nothing is dispatched only when no plate does |
| Cook.FindByInit | apps/web/helpers/cook/onDragEnter.js:9 | the first group whose raw value equals the dragged item, or none when no group has it |
| Cook.FindByInitUnique | apps/web/helpers/cook/onDragEnter.js:9 | in a table with distinct raw values, a group's raw value finds that group |
| Cook.StationTablesLookUp | apps/web/helpers/cook/onDragEnter.js:9 | on the stove and the toaster each raw food selects its own group |
| Cook.Station.OnDragEnter | apps/web/helpers/cook/onDragEnter.js:1-11 | an idle station without burnt food takes the dragged food's group; otherwise nothing changes |
| Cook.Station.OnDrop | apps/web/helpers/cook/onDrop.js:1-7 | dropping the group's raw food on an idle station starts cooking; anything else changes nothing |
| Cook.Station.PassToPlate | apps/web/helpers/cook/passToPlate.js:3-16 | a done food goes onto the first plate that takes it, or no plate changes; a done station is cleared and stops moving |
| Customers.BasicDishesMembers | apps/web/store/features/customerSlice.js:29-31 | the filter keeps exactly the dishes that are not level-2 ones |
| Customers.MenuHasBasicDish | apps/web/contents/menuList.js:2 | the dish table has a level-1 dish |
| Customers.OrderListDishes | apps/web/store/features/customerSlice.js:29-34 | every possible order is a dish of the table, a level-1 dish below level 2, and every such dish can be ordered |
| Customers.OrderListNonEmpty | apps/web/store/features/customerSlice.js:34 | the list an order is sampled from is never empty |
| Customers.SampleOrder | apps/web/store/features/customerSlice.js:34 | the sampled order is an entry of the menu list on level 2, of the basic list otherwise |
| Customers.DefaultCustomers | apps/web/store/features/customerSlice.js:49-55 | seats `1..MAX_CUSTOMERS`, each waiting for a possible order, none overtime |
| Customers.CustomerSlice.constructor | apps/web/store/features/customerSlice.js:8-10 | score 0, no seats, no level |
| Customers.CustomerSlice.HandleOvertime | apps/web/store/features/customerSlice.js:16-20 | only that seat's overtime flag changes |
| Customers.CustomerSlice.HandleCustomStatus | apps/web/store/features/customerSlice.js:21-25 | only that seat's status changes |
| Customers.CustomerSlice.GetNextOrder | apps/web/store/features/customerSlice.js:26-35 | that seat gets a possible order for the level and keeps its status; no other seat changes |
| Customers.CustomerSlice.GetScore | apps/web/store/features/customerSlice.js:36-39 | the score grows by the points given |
| Customers.CustomerSlice.MinusScore | apps/web/store/features/customerSlice.js:40-42 | the score drops by 30 |
| Customers.CustomerSlice.GetInitCustomersState | apps/web/store/features/customerSlice.js:43-58 | seats `1..MAX_CUSTOMERS` are fresh waiting seats; other seats and the score are kept; the level is recorded |
| GameConfig.GameConfigSlice.constructor | apps/web/store/features/gameConfigSlice.js:5-15 | the initial single-player state with no room |
| GameConfig.GameConfigSlice.HandleTrashCan | apps/web/store/features/gameConfigSlice.js:17-20 | only the trash-can flag changes |
| GameConfig.GameConfigSlice.HandleTimerStatus | apps/web/store/features/gameConfigSlice.js:21-27 | the timer phase is set; the room id only when a truthy one is given, so a known room is never forgotten |
| GameConfig.GameConfigSlice.SetGameMode | apps/web/store/features/gameConfigSlice.js:28-31 | only the game mode changes |
| GameConfig.GameConfigSlice.SetRoomInfo | apps/web/store/features/gameConfigSlice.js:32-37 | each of room id, players and host id is taken only when given (truthy); none is ever cleared |
| GameConfig.GameConfigSlice.SetOpponentScore | apps/web/store/features/gameConfigSlice.js:38-42 | the opponent's score always, the name only when truthy |
| GameConfig.GameConfigSlice.ResetGameConfig | apps/web/store/features/gameConfigSlice.js:43-51 | back to single-player mode selection with no room or opponent; trash can and own score kept; resetting twice equals resetting once |
| Ranking.CalculateRanking | apps/web/helpers/calculateRanking.js:3-42 | `isTopFive` holds when the board is short or the score beats its last entry; the board is kept unless a signed-in player makes it; a new board has `min(n+1, N)` entries ranked 1, 2, ... |
| Ranking.InsertSpec | apps/web/helpers/calculateRanking.js:19 | one insertion step keeps the board descending and adds exactly the new entry |
| Ranking.SortSpec | apps/web/helpers/calculateRanking.js:19 | the contract of `Ranking.SortByScore`, the model of `.sort((a, b) => b.score - a.score)`: it yields a descending permutation |
| Ranking.SortCount | apps/web/helpers/calculateRanking.js:19 | sorting keeps the number of entries reaching any score |
| Ranking.InsertPosition | apps/web/helpers/calculateRanking.js:19 | the stable sort places a later entry after every entry scoring at least as much |
| Ranking.LandsAfterTies | apps/web/helpers/calculateRanking.js:14-19 | the new entry lands right after the existing entries scoring at least as much: ties keep the older entry ahead |
| Ranking.RankingIsTopOfSort | apps/web/helpers/calculateRanking.js:14-24 | a new board is the first N of a descending permutation of the old board plus the new entry, re-ranked; nothing cut off outscores anything kept |
| Ranking.NewEntryListed | apps/web/helpers/calculateRanking.js:9-24 | on a board of at most N entries, a signed-in top-five score is on the new board, at rank one more than the entries scoring at least as much |
| Ranking.TopFiveIffRoom | apps/web/helpers/calculateRanking.js:4-10 | on a descending board of at most N entries, `isTopFive` holds exactly when fewer than N entries reach the score |
| RoomServer.Authenticate | apps/socket-server/server.js:95-107 | a falsy token is refused as `Unauthorized`; otherwise the user's id is the (non-empty) token, with name and email defaulting to empty |
| RoomServer.GeneratedIdNotInherited | apps/socket-server/server.js:118-120 | a generated room id is never an inherited property name |
| RoomServer.Without | apps/socket-server/server.js:281-283 | the filter keeps exactly the players with another id |
| RoomServer.WithoutDistinct | apps/socket-server/server.js:281-283 | filtering keeps player ids distinct |
| RoomServer.WithoutPresent | apps/socket-server/server.js:281-283 | filtering out a present player removes exactly one record |
| RoomServer.WithoutAbsent | apps/socket-server/server.js:281-283 | filtering out an absent id keeps the list |
| RoomServer.PlayerReady | apps/socket-server/server.js:219-226 | one `opponentReady` message to the rest of the given room, never delivered to the sender |
| RoomServer.GameStart | apps/socket-server/server.js:228 | one `hostStartTheGame` message to the whole room, the sender included |
| RoomServer.ScoreUpdate | apps/socket-server/server.js:230-246 | nothing is sent for a falsy room id or a non-number score; otherwise one update to the rest of the room, never to the sender |
| RoomServer.GameEnd | apps/socket-server/server.js:248-264 | nothing is sent for a falsy room id; otherwise exactly one `opponentGameEnd` to the rest of the room, never the sender |
| RoomServer.JoinErrorChangesNothing | apps/socket-server/server.js:165-186 | a refused join sends one `joinRoomError` and changes no table |
| RoomServer.FullRoomRefusesMember | apps/socket-server/server.js:171-185 | a full room answers "room is full" even to a player already in it |
| RoomServer.JoinOutcome | apps/socket-server/server.js:165-217 | the contract of `RoomServer.JoinRoomStep`, the model of the `joinRoom` handler: a join fails and changes nothing, or appends the caller to a one-player room and makes it ready, sending in order `playerJoined` to the others, `joinedRoom` to the caller and `roomReady` to the whole room |
| RoomServer.CreatePreservesInv | apps/socket-server/server.js:129-163 | the contract of `RoomServer.CreateRoomStep`, the model of the `createRoom` handler (with `HostNeverReassigned` and `CreateThenDisconnect`): it keeps the tables well formed |
| RoomServer.JoinPreservesInv | apps/socket-server/server.js:165-217 | `joinRoom` never adds a third player or a player twice |
| RoomServer.SecondHostDeleteRedundant | apps/socket-server/server.js:280-295 | the second `delete roomHosts[roomId]` never removes anything the first cleanup left |
| RoomServer.DisconnectPreservesInv | apps/socket-server/server.js:266-313 | `disconnect` keeps the tables well formed |
| RoomServer.DisconnectOutcome | apps/socket-server/server.js:266-313 | the contract of `RoomServer.DisconnectStep`, the model of the `disconnect` handler, for a room that still exists (the other paths are `DisconnectWithoutRoom` and `DisconnectRoomGone`): the caller leaves the room and `userRooms`, the room is told whether its host left; the room and its host entry go exactly when the caller was its only player; no other room, host entry or user's entry changes |
| RoomServer.DisconnectWithoutRoom | apps/socket-server/server.js:266-272 | a socket without a (truthy) room id disconnects with no change and no message |
| RoomServer.DisconnectRoomGone | apps/socket-server/server.js:266-305 | when the room is already gone the caller still leaves `userRooms` and the room is told, with `isHostDisconnected` false; under an inherited property name the handler throws before any cleanup and nothing changes |
| RoomServer.HostNeverReassigned | apps/socket-server/server.js:165-313 | joining and leaving never change a surviving room's host; creating touches only its own room |
| RoomServer.CreateThenDisconnect | apps/socket-server/server.js:129-313 | create then disconnect restores the room tables under a fresh non-empty id; under the empty id the room stays |
| RoomServer.WithoutAppend | apps/socket-server/server.js:281-283 | filtering distributes over concatenation |
| RoomServer.JoinThenDisconnect | apps/socket-server/server.js:165-313 | a guest who joins and leaves gives the room its players back, but the room stays `ready` |
| RoomServer.RunPreservesInv | apps/socket-server/server.js:114-313 | any sequence of requests keeps the tables well formed |
| RoomServer.RoomsStayWellFormed | apps/socket-server/server.js:114-116 | from empty tables every room has one or two distinct players and a host entry naming its host |
| RoomServer.FindPlayer | apps/socket-server/server.js:176-178 | finds the first player with the id, and finds one exactly when there is one |
| RoomServer.Connection.constructor | apps/socket-server/server.js:95-106 | a connection exists only for a handshake the middleware accepts; it carries the user built from it (non-empty id) and no room yet |
| RoomServer.Coordinator.constructor | apps/socket-server/server.js:114-116 | the three tables start empty |
| RoomServer.Coordinator.CreateRoom | apps/socket-server/server.js:129-163 | the in-place handler yields exactly `CreateRoomStep`'s tables, socket room and messages, and keeps the invariant |
| RoomServer.Coordinator.JoinRoom | apps/socket-server/server.js:165-217 | the in-place handler yields exactly `JoinRoomStep`'s tables, socket room and messages, and keeps the invariant |
| RoomServer.Coordinator.Disconnect | apps/socket-server/server.js:266-313 | the in-place handler yields exactly `DisconnectStep`'s tables and messages, and keeps the invariant |

## Left out

- Socket transport, the Redis adapter, the HTTP health endpoints, logging and `createdAt`/`timestamp` values: messages are modelled as a list of (audience, event) pairs.
- `generateRoomId` randomness: the id is a parameter restricted to what it can return, at most six characters of `[0-9A-Z]`, possibly empty. `createRoom`'s `createRoomError` path is not modelled, because nothing in the handler can throw.
- Handshake tokens, room ids and payload fields are strings or absent. Other JavaScript types (numbers, objects) are not modelled, and neither are payloads that cannot be destructured.
- Scores are integers. Floating-point scores and the `typeof score !== "number"` test beyond number versus non-number are not modelled.
- String ordering is code-point order on `char`. JavaScript compares UTF-16 code units, which differs only outside the Basic Multilingual Plane; all menu strings are ASCII.
- `MAX_PLATE`, `MAX_CUSTOMERS` and `TOP_RANKINGS` come from `contents/rules.js`, which is not part of this model. They are parameters; `TOP_RANKINGS` is taken to be at least 1.
- `lodash.sample` randomness: the sampled order is some entry of the list, with no distribution.
- Redux's action dispatch and React's rendering: reducers are methods, and `dispatch(addFood(...))` in the auto-placement loops is the returned action.
- `plateContent{i}` and `customer{i}` keys are modelled by their number `i`.
- The `timerStatus` name exported from the `gameConfig` actions is not a reducer (it is `undefined`) and has no model.
- PlateRules.SortedDishes: `checkIsPlateFull` recomputes its comparison list on each call. The model holds the list as a constant, and `PlateRules.SortedDishesComputed` proves it equal to the computed one.
- Customers.CustomerSlice: the dish table is held in the `menu` field, which the constructor sets to the game's table, where the source reads `menuInfo` directly.
- Customers.Customer: a fresh seat has no `overtime` property. Every reader tests it only for truthiness, so absence is modelled as `false`. Seat status is one of the three values the game dispatches (`waiting`, `errors`, `eating`), not any string.
- Cook.Station.PassToPlate: with `isDone` and no cooked group, `addFood` would read `.length` of `undefined` and throw. The model requires that callers do not reach this, where the source would crash.
- Plates.PlateSlice.AddFood: an item without a length (`null`, `undefined`) on an existing plate throws in the source. The model requires a string there. Plate ids are numbers: an `addFood` dispatched with a `null` plate id, which writes an extra `plateContentnull` key nobody reads, is not modelled. The empty array that the trash can and a served customer pass as the item is modelled as the empty string; both have length 0 and reset the plate.
- Plates.PlateSlice.SetTargetPlate: the initial `''` and a dispatched `null` are both modelled as no plate.
- Customers.CustomerSlice.HandleOvertime, HandleCustomStatus and GetNextOrder dereference the seat, so the model requires that the seat exists.
