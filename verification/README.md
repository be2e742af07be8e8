# Voltage Wars: wiring board, action stages and commentary in Dafny

Voltage Wars is a two-team classroom game about galvanic cells. Each team
assembles two cells from metal electrodes. It then wires the cells to a
voltmeter's probes on a board with six terminals: `v_pos`, `v_neg`, and
`c1_L`, `c1_R`, `c2_L`, `c2_R`. In each round's action stages the teams
play chance cards against each other's boards, and a commentator remarks
on the state of the game.

This project models three parts of that game as pure Dafny functions and
methods, and proves their properties:

- **The wiring board** (`components/WiringStage.tsx`):
  - `wires.dfy` holds the wire list and `tryConnect`. A wire is refused when it is a self-loop, when a terminal already carries two wires, or when it duplicates an edge in either orientation. It also holds wire deletion and the two guide layouts.
  - `editor.dfy` holds the click-driven selection machine: node, background and wire clicks, and clearing the board. A wire click also reaches the background below it, so it drops the selection as well. It proves the invariant that every reachable board satisfies.
  - `cells.dfy` holds the physical placement of electrodes in a reversed cell, and the dispatch of beaker and cell clicks into sabotage actions while a card is armed.
  - `flow.dfy` holds the flow overlay: the choice of source and sink from the voltage's sign and the flow mode, and the breadth-first search with its path reconstruction. The search is proved sound and complete against reachability in the circuit graph.
- **The action stages** (`components/BattleStage.tsx`, in `battle.dfy`):
  - how a phase is classified as stage 1, 2 or 3;
  - the scope each stage imposes and which board is targeted;
  - when the skip, re-target and deselect buttons are offered;
  - the select / aim / confirm protocol that turns a chance card into a play;
  - the coin-toss spinner.
- **The commentary picker** (`services/geminiService.ts`, in `commentary.dfy`): the leader and trailer, the category decided by fixed priority, and the random template choice.

`types.dfy` holds the few types shared by these modules.

Randomness (`Math.random()`) and the clock (`Date.now()`, which supplies
wire ids) become parameters. Voltages are exact reals.

## Model

| member | source | states |
|---|---|---|
| Wires.TryConnect | components/WiringStage.tsx:235-260 | The result is the old list or the old list plus exactly one wire `from`-`to` with the fresh id. It grows exactly when the endpoints differ, both have fewer than two wires, and no wire already joins them in either orientation. After a successful connect the edge is present. |
| Wires.TryConnectNoSelfLoop | components/WiringStage.tsx:236-237 | A board without self-loops never gains one through a connection attempt. |
| Wires.TryConnectPreservesWellFormed | components/WiringStage.tsx:235-260 | A connection attempt keeps the board well formed: no self-loop, at most two wires per terminal, no pair of terminals joined twice. |
| Wires.FullTerminalBlocks | components/WiringStage.tsx:239-243 | When either endpoint already carries two wires, no terminal's wire count changes. |
| Wires.TryConnectIdempotent | components/WiringStage.tsx:245-251 | Repeating a connect, in the same or the reversed orientation and with any new id, leaves the board as the first attempt left it. |
| Wires.Connections | components/WiringStage.tsx:392-394 | A terminal's wire count, the number of wires with it at either end, never exceeds the number of wires. |
| Wires.ConnectionsZero | components/WiringStage.tsx:239-240 | A terminal has no wires exactly when no wire on the board touches it. |
| Wires.ConnectionsConcat | components/WiringStage.tsx:392-394 | A terminal's wire count over two concatenated lists is the sum of the counts over each. |
| Wires.RemoveWire | components/WiringStage.tsx:329 | A wire survives deletion exactly when it was on the board and carries a different id; the list never grows. |
| Wires.RemoveWireConcat | components/WiringStage.tsx:329 | Deletion acts on each part of a split list separately, so the surviving wires keep their order. |
| Wires.RemoveAbsentId | components/WiringStage.tsx:329 | Deleting an id that no wire carries leaves the list unchanged. |
| Wires.RemoveWireIdempotent | components/WiringStage.tsx:329 | Deleting the same id twice is the same as deleting it once. |
| Wires.RemoveWireConnections | components/WiringStage.tsx:327-332 | Deleting wires never raises any terminal's wire count. |
| Wires.RemoveWirePreservesWellFormed | components/WiringStage.tsx:327-332 | Deleting wires keeps the board well formed. |
| Wires.ConnectAll | components/WiringStage.tsx:470 | Drawing a list of guide pairs one connection attempt at a time only appends to the board, and adds at most one wire per pair. |
| Wires.Accepted | components/WiringStage.tsx:235-260 | When all of `tryConnect`'s guards pass, the attempt appends exactly the wire from `from` to `to` with the fresh id. |
| Wires.HasEdgeAppend | components/WiringStage.tsx:245-251 | After a wire is appended, two terminals are joined exactly when they were joined before or the new wire joins them. |
| Wires.Extend | components/WiringStage.tsx:239-251 | Appending a wire raises each endpoint's count by one exactly when the wire touches it, and adds exactly its own edge. |
| Wires.SeriesGuards | components/WiringStage.tsx:28-33 | Each of the series guide's wires passes `tryConnect`'s guards on the board left by the ones before it. |
| Wires.SeriesCounts | components/WiringStage.tsx:28-33 | No terminal carries more than two of the series guide's wires. |
| Wires.SeriesWellFormed | components/WiringStage.tsx:28-33 | The series guide's wires form a well-formed board. |
| Wires.ParallelGuards | components/WiringStage.tsx:34-39 | Each of the parallel guide's wires passes `tryConnect`'s guards on the board left by the ones before it. |
| Wires.ParallelCounts | components/WiringStage.tsx:34-39 | No terminal carries more than two of the parallel guide's wires. |
| Wires.ParallelWellFormed | components/WiringStage.tsx:34-39 | The parallel guide's wires form a well-formed board. |
| Wires.SeriesGuideRealisable | components/WiringStage.tsx:28-33 | Drawing the series guide's three wires on an empty board accepts every one: the board ends up holding exactly those wires in order, and it is well formed. |
| Wires.ParallelGuideRealisable | components/WiringStage.tsx:34-39 | Drawing the parallel guide's four wires on an empty board accepts every one: the board ends up holding exactly those wires in order, and it is well formed. |
| Editor.HandleNodeClick | components/WiringStage.tsx:279-312 | A locked board (read-only or sabotage target) ignores the click. Clicking the selected terminal deselects it. The wires either stay or become exactly the `tryConnect` of the selected terminal and the clicked one. Any change to the wires clears the selection. A newly selected terminal is the clicked one and has room for a wire. With nothing selected, the click keeps the wires and selects the terminal exactly when it has room. A click on a terminal that is not highlighted as connectable keeps the wires, and it switches the selection to that terminal when the terminal has room; otherwise the old selection stays. |
| Editor.IsConnectable | components/WiringStage.tsx:263-277 | Definition of the highlight: a terminal is connectable from the selection when it is another terminal, has room, and is not yet joined to the selection. `Editor.ConnectableMatchesTryConnect` relates it to `tryConnect`. |
| Editor.ConnectableMatchesTryConnect | components/WiringStage.tsx:263-277 | When the selection has room, a terminal is highlighted as connectable exactly when `tryConnect` from the selection to it would add a wire. |
| Editor.ConnectableClickConnects | components/WiringStage.tsx:298-301 | Clicking a highlighted terminal appends exactly the wire from the selected terminal to it and clears the selection. |
| Editor.NodeClickKeepsInv | components/WiringStage.tsx:279-312 | A node click keeps the editor invariant: a well-formed board, and a selected terminal that has room. |
| Editor.HandleBackgroundClick | components/WiringStage.tsx:321-325 | A background click keeps the wires and always leaves nothing selected. |
| Editor.HandleWireClick | components/WiringStage.tsx:327-332 | A wire survives the click exactly when it was on the board and either carries another id or the board is locked; the selection is unchanged. |
| Editor.WireClickKeepsInv | components/WiringStage.tsx:327-332 | A wire click keeps the editor invariant. |
| Editor.ClearWires | components/WiringStage.tsx:351-355 | Clearing leaves no wires and no selection. |
| Editor.Step | components/WiringStage.tsx:279-355 | One gesture on the board. A locked board never changes its wires. A background click keeps the wires and drops the selection. A wire click (line 494) bubbles to the background handler (line 461): it drops the selection and deletes exactly the wires with that id, unless the board is locked. The bin button is rendered only on an editable board (lines 406 and 434): there it empties the board, and otherwise nothing happens. |
| Editor.Run | components/WiringStage.tsx:279-355 | Over any sequence of gestures, a locked board keeps its wires. |
| Editor.RunKeepsInv | components/WiringStage.tsx:279-355 | After any sequence of clicks from a board satisfying the invariant, the invariant still holds and no terminal carries more than two wires. |
| Editor.EmptyBoardInv | components/WiringStage.tsx:117-119 | The initial empty board with nothing selected satisfies the invariant, so every board reached by clicks does. |
| Types.Opposite | components/WiringStage.tsx:387 | The other side of a cell is never the same side. |
| Cells.Flip | components/WiringStage.tsx:384-387 | Reversing a cell keeps both stored metals and toggles only the flipped flag that `getPhysicalMetal` reads. The toggle itself is applied by the application shell's `App.tsx`, line 463. |
| Cells.PhysicalMetal | components/WiringStage.tsx:384-390 | An unflipped cell shows each slot's metal on its own side, and a flipped cell shows the opposite slot's metal. An empty slot shows as unknown. |
| Cells.FlipMirrors | components/WiringStage.tsx:384-390 | Reversing a cell moves each label to the other physical side. |
| Cells.FlipTwiceIsIdentity | components/WiringStage.tsx:384-390 | Reversing a cell twice shows every label where it was. |
| Cells.PhysicalIsPermutation | components/WiringStage.tsx:384-390 | The two physical labels are the two stored slots as a multiset: reversing never invents or loses an electrode. |
| Cells.BeakerClick | components/WiringStage.tsx:334-342 | A beaker click yields an action exactly in sabotage mode, with a handler, a swap card and a metal on the card. The action then swaps that cell's slot for the card's metal. |
| Cells.CellContainerClick | components/WiringStage.tsx:344-349 | A cell click yields an action exactly in sabotage mode, with a handler and a reverse-polarity card. The action then reverses that cell. |
| Cells.DispatchMatchesCard | components/WiringStage.tsx:334-349 | Under one set of props, beaker and cell clicks never both produce an action, and what is produced matches the armed card's effect. |
| Cells.ReadOnlyIrrelevant | components/WiringStage.tsx:334-349 | Outside sabotage mode neither click produces an action, and the read-only flag never changes what a click produces. |
| Flow.FlowEnds | components/WiringStage.tsx:161-170 | Source and sink are the two probes, one each. The flow starts at the black probe exactly when a positive voltage meets electron mode, or a non-positive voltage meets current mode. |
| Flow.FlowEndsSymmetry | components/WiringStage.tsx:164-170 | Switching between electron and current mode reverses the flow, and so does negating a non-zero voltage. |
| Flow.WireNeighbors | components/WiringStage.tsx:172-180 | Definition of the wire part of the adjacency list: each wire contributes its far end for `x`, in wire order. `Flow.WireNeighborsExact` states what it contains. |
| Flow.Neighbors | components/WiringStage.tsx:172-182 | Definition of the full adjacency list: the wire neighbours followed by the other electrode of the same cell. `Flow.NeighborsExact` states what it contains. |
| Flow.WireNeighborsExact | components/WiringStage.tsx:172-180 | The adjacency list built from the wires contains `v` for `x` exactly when some wire joins `x` and `v`. |
| Flow.NeighborsExact | components/WiringStage.tsx:172-182 | The full adjacency list, with the two cell bridges, lists exactly the edges of the circuit graph. |
| Flow.ClosedSetTrapsWalks | components/WiringStage.tsx:189-199 | A walk that starts inside a set closed under circuit edges never leaves it. |
| Flow.Expand | components/WiringStage.tsx:192-198 | Expanding one dequeued terminal enqueues and marks every unvisited neighbour, recording a parent that is a circuit neighbour strictly closer to the source. |
| Flow.SearchStep | components/WiringStage.tsx:189-198 | Dequeuing the head of the queue and expanding it keeps every discovered terminal either expanded or still queued. It also keeps every neighbour of an expanded terminal discovered. |
| Flow.Search | components/WiringStage.tsx:184-199 | Every parent link is a circuit edge that leads strictly closer to the source. When the sink is found it was visited. When it is not found, the visited set excludes the sink and is closed under circuit edges. |
| Flow.WalkBack | components/WiringStage.tsx:201-209 | Following parent links from a visited sink yields a chain of directed circuit edges from the source to the sink, so the sink is reachable. |
| Flow.TracePath | components/WiringStage.tsx:184-210 | The traced path is empty exactly when the sink cannot be reached from the source. Otherwise it is a chain of circuit edges from source to sink. |
| Flow.ActiveFlowPath | components/WiringStage.tsx:156-211 | The overlay is empty when flow is hidden or the voltage's magnitude is below 0.01. Otherwise it is empty exactly when the two probes are not connected, and it is a chain of circuit edges between the ends that the voltage and mode choose. |
| Battle.StageClassification | components/BattleStage.tsx:51-53 | Stage k is exactly the action phases of stage k for either player. No phase lies in two stages, and only action phases lie in any. |
| Battle.ForcedScope | components/BattleStage.tsx:64-69 | A stage forces a scope exactly in stages 1 and 2. |
| Battle.EnterPhase | components/BattleStage.tsx:63-69 | Entering stage 1 aims at the opponent and stage 2 at oneself. Stage 3 resets the aim to the opponent only when no card is chosen, and otherwise keeps the player's aim. Outside the action stages the scope is untouched. |
| Battle.TargetTeam | components/BattleStage.tsx:71-72 | The OPPONENT scope targets the opponent's board, and the SELF scope targets the active team's board. |
| Battle.TargetIsOpponentIff | components/BattleStage.tsx:72 | For two different boards, the target is the opponent exactly when the scope is OPPONENT. |
| Battle.HandleSabotageAction | components/BattleStage.tsx:79-84 | With no chosen card the click is ignored. Otherwise the action is recorded with the scope of that moment, and the dialog opens. |
| Battle.ConfirmAction | components/BattleStage.tsx:86-94 | A card is played exactly when both a chosen card and a recorded action exist. It is that card with that action, after which card, action and dialog are cleared. Otherwise nothing changes. |
| Battle.CancelWarning | components/BattleStage.tsx:242 | Cancelling closes the dialog and keeps card, action and scope. |
| Battle.SelectAimConfirm | components/BattleStage.tsx:74-94 | Choosing a card, aiming it and confirming plays exactly that card, aimed with the scope of aiming time, and leaves nothing chosen or pending. |
| Battle.CancelPlaysNothing | components/BattleStage.tsx:241-247 | Cancelling plays nothing, and a confirm right after it plays nothing: the card must be aimed again first. |
| Battle.SkipOffered | components/BattleStage.tsx:325 | Definition: the SKIP button is shown in stage 3 only. |
| Battle.ScopeToggleOffered | components/BattleStage.tsx:272 | Definition: the target toggle is shown in stage 3 only while no card is chosen. |
| Battle.DeselectOffered | components/BattleStage.tsx:351 | Definition: the button that drops the chosen card is shown in stage 3 only while a card is chosen. |
| Battle.StepAsWritten | components/BattleStage.tsx:227-357 | While the confirmation dialog is open it covers the screen, so only confirm and cancel act. Otherwise a skip is reported only in stage 3, and the scope changes only while the stage-3 toggle is shown. A card is played only by a confirm in the open dialog. |
| Battle.DialogBlocksScreen | components/BattleStage.tsx:227-248 | While the dialog is open, any sequence of gestures other than confirm and cancel leaves the screen unchanged and reports nothing. |
| Battle.SkippedCardCarriesOver | components/BattleStage.tsx:325-333 | As written, a card chosen by the first player in stage 3 and then skipped stays chosen into the second player's stage 3, with the first player's aim, and the second player can aim and play it. |
| Battle.Step | components/BattleStage.tsx:227-357 | A skip is reported exactly on a stage-3 skip press while the dialog is closed, and after it nothing is chosen, pending or shown. The scope changes only while the toggle is shown and the dialog is closed. Every other gesture behaves as written. |
| Battle.Run | components/BattleStage.tsx:227-357 | Over a sequence of gestures, at most one output per gesture, and a skip is reported only in stage 3. |
| Battle.SkipEndsTurn | components/BattleStage.tsx:64-69 | With the corrected skip, a skip press ends the turn exactly when the dialog is closed. Then the next action turn starts with nothing chosen or pending. In stage 3 its aim is reset to the opponent, and neither a confirm nor an aim does anything before a new card is chosen. |
| Battle.ForcedStagesLockTarget | components/BattleStage.tsx:63-94 | In stages 1 and 2, over any sequence of gestures, the scope stays the forced one, every play is aimed with it, and no skip is reported. |
| Battle.EnterForcedStage | components/BattleStage.tsx:64-66 | Entering stage 1 or 2 with nothing pending sets the forced scope, which is the starting condition of `ForcedStagesLockTarget`. |
| Battle.StartSpin | components/BattleStage.tsx:96-102 | A press while spinning or after a result changes nothing and draws nothing. Otherwise the spinner starts, and the winner is 0 or 1: it is 1 exactly when the random value exceeds 0.5. |
| Battle.SpinStops | components/BattleStage.tsx:105-107 | When the timer fires, the spinner stops on the drawn winner. |
| Battle.SpinStartsOnce | components/BattleStage.tsx:96-114 | A second press, during the spin or after it stopped, neither restarts it nor draws a new winner. |
| Commentary.ToLower | services/geminiService.ts:109 | Lower-casing keeps the length and maps each character on its own. |
| Commentary.Leader | services/geminiService.ts:99 | The leader is team 0 or 1 and holds a voltage at least the other team's. |
| Commentary.Trailer | services/geminiService.ts:100 | The trailer is team 0 or 1 and holds a voltage at most the other team's. |
| Commentary.LeaderAndTrailer | services/geminiService.ts:99-100 | Leader and trailer are always different teams. The leader holds the higher voltage, and a tie makes the first team the leader. |
| Commentary.Classify | services/geminiService.ts:103-119 | The attack category is chosen exactly when the action names an attack. The high-voltage, close-game, start and default categories need both voltages non-negative, and high voltage needs a team above 2.5 V. |
| Commentary.ClassifyPriority | services/geminiService.ts:99-119 | Each category is chosen exactly when its condition holds and no earlier condition does. The order is: attack keyword, negative voltage, leader above 2.5 V, close game (both non-zero and less than 0.5 V apart), start keyword, default. |
| Commentary.NegativeOutranksHigh | services/geminiService.ts:103-114 | Without an attack keyword, any negative voltage gives the negative-voltage category, even when the other team is above 2.5 V. |
| Commentary.ClassifySymmetric | services/geminiService.ts:99-119 | The category does not depend on which team is listed first. |
| Commentary.ClassifyIgnoresCase | services/geminiService.ts:109-117 | The category does not depend on the case of the action text. |
| Commentary.Templates | services/geminiService.ts:7-80 | Every category has two templates, each belonging to that category. |
| Commentary.FloorIndexInRange | services/geminiService.ts:83 | `floor(r * n)` with `0 <= r < 1` is a valid index of an `n`-element list. |
| Commentary.PickRandom | services/geminiService.ts:83 | A non-empty list always yields an element of the list, and an empty list yields none. |
| Commentary.GenerateCommentary | services/geminiService.ts:121-123 | The commentary is one of the templates of the category the priority decision chooses. |

## Left out

- Rendering is not modelled: SVG geometry, the cursor's ghost wire, animations, the guide overlay toggle, voltage display easing, sounds and the language switch.
- The asynchronous parts are not modelled: the half-second delay before a commentary, the 3 s and 2 s coin-toss timers (only the stop is modelled, as `SpinStops`), and the `onCoinTossComplete` callback.
- The effect that reloads the wire list when the team's stored wires change from outside (components/WiringStage.tsx:151-153) is not modelled. The editor model starts from a given board.
- `onUpdate`/`onConfirm` of the wiring board and the voltage computation are outside these components. The voltage enters the flow overlay as a parameter.
- Wire ids come from `Date.now()`. They are a `freshId` parameter, and the model claims nothing about their uniqueness, just as the source does not.
- `Math.random()` is a parameter `r` with `0 <= r < 1`.
- The game's phase machine, the application of played cards to teams, history snapshots and the round resolver live in the application shell and are not part of this model. Phases are inputs here.
- The joint-draw animation screen and the card instruction texts are presentation only and are not modelled.
- The template texts are not modelled. A template is identified by its category and its position (two per category, as in the source).
- Commentary.ToLower: lower-cases ASCII letters only, whereas JavaScript's `toLowerCase` also folds non-ASCII letters. The keywords searched for are ASCII, but a non-ASCII capital in the action text is kept as is.
- Flow.ActiveFlowPath: returns the path as an ordered chain of directed edges, whereas the source returns a set of `"p->c"` strings. The set is the chain's elements.
- Flow.ActiveFlowPath: takes exact reals, so NaN and infinite voltages are not modelled.
- Battle.Step: stages 1 and 2 offer no skip even when the hand is empty. The screen has no fallback of its own for that case, and any forced skip happens in the game shell, which is outside this model.
- Battle.Step: the confirm and cancel buttons act only while the dialog is open, which is when the screen shows them.
- `components/WelcomeScreen.tsx`, `components/GameManual.tsx` and `components/Visuals.tsx` are presentation only and are not part of this model.

## Findings

| source | as written | input that shows it | evidently intended | confidence | as-written member | corrected member |
|---|---|---|---|---|---|---|
| components/BattleStage.tsx:325-333 | The stage-3 SKIP button calls `onSkip` without clearing `selectedCard`. The screen stays mounted from one player's stage 3 to the other's, and the phase effect (lines 64-69) keeps the scope when a card is chosen. | In the first player's stage 3, set the target to SELF, choose a card and press SKIP (the toggle is hidden once a card is chosen, line 272). In the second player's stage 3 the card is still chosen, still aimed at SELF, and aiming plus EXECUTE plays the first player's card. | Skipping ends the turn the way a play does: the chosen card and any pending action are dropped, so the next turn starts with nothing chosen and the target reset to the opponent. | medium, not executed | Battle.StepAsWritten, Battle.SkippedCardCarriesOver | Battle.Step, Battle.SkipEndsTurn |
