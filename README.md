# neviraller in Dafny

A model of the logic behind neviraller, the installer and updater for the
NEVIRAIDE Neovim configuration. The project covers four parts.

- **The component runtime of the Rust terminal UI.**
  - The central dispatcher `App` owns the quit and suspend flags, the mode, the buffer of pending chord keys and the action channel.
  - It turns terminal events into actions (single keys first, then multi-key chords).
  - It drains the channel first in, first out, handles the lifecycle actions itself and broadcasts every action to its five components in order. Whatever they send back is handled in the same drain.
  - After the drain, a suspend queues `Resume` and a quit ends the loop.
  - The components are the menu (a bounded, non-wrapping selection), the info log (a message log that only grows, drawn scrolled to its end) and the Yes/No popup.
  - The screen layout is modelled as the choice of constraints and the region each component is drawn into.
- **The older `tui` front end.**
  - A wrapping menu, and the key handler that sends actions over a channel.
  - The main loop that performs them.
  - The key-binding table, ordered by the debug text of the keys, and the help line it formats.
  - The update-message state, the widget-parameter builder, and the prototype loop that runs until 'q' is pressed.
- **The nightly updater's version check.** The output of `nvim --version` is a parameter.
- **The Go installer's helpers.**
  - The ANSI colour format string.
  - The table of required tools.
  - The dependency check, which probes each tool in place, counts the missing ones and builds the report table. The `which` probe is an oracle function.

Each stateful part is a class whose methods change its fields in place. Every such method is proved against a function over a snapshot of the state, and the properties are proved about those functions. The pure parts are datatypes, functions and lemmas.

The model keeps several behaviours exactly as the source has them:

- A chord that matched is not cleared from the buffer. Only a `Tick` action empties it, and no event produces `Tick` (`App.TickEventIsDropped`).
- The dispatcher's menu item "Check dependencies" is not the spelling the menu's `Select` arm recognises ("Check Dependencies"). Selecting it yields an `Error` action (`App.CheckDependenciesItemIsUnknown`).
- With `Down` bound to `Next`, one press moves the selection two rows. The menu moves on the key itself, and again on the `Next` the keymap sent (`App.DownPressMovesTwice`).
- Up and Down display as empty text in the help line, so the Next and Previous groups end in a dangling " | " (`TuiKeymaps.DefaultFormatting`).
- The dispatcher and the menu call the dependency-check action `CheckDependencies`, but the enum in src/action.rs declares `CheckDeps`. The model uses `CheckDeps`.

## Model

| member | source | states |
|---|---|---|
| Action.VariantIndex | src/action.rs:5-23 | every action is exactly one of the seventeen declared variants |
| App.ResolveKey | src/app.rs:114-131 | a single bound key fires at once and leaves the buffer alone; otherwise the key joins the buffer, and one action is sent iff the whole buffer is bound; without a keymap for the mode nothing happens |
| App.BufferAccumulates | src/app.rs:119-129 | without single-key bindings the buffer keeps every key pressed: a match does not clear it |
| App.SingleKeyPriority | src/app.rs:116-118 | a key bound on its own fires whatever is pending, and the pending chord is untouched |
| App.ChordFiresOnce | src/app.rs:122-128 | a two-key chord fires once on its second key and does not fire again on a third press |
| App.TickBetweenBreaksChord | src/app.rs:196-198 | a `Tick` between the two presses empties the buffer, so the chord does not fire |
| App.ComponentHandleEvent | src/app.rs:135-139 | only the menu reacts to events, and only to key events; others change nothing and send nothing |
| App.HandleEventsOver | src/app.rs:135-139 | `handle_events` over the components in order keeps the menu's selection in range |
| App.HandleEventsOverComponents | src/app.rs:135-139 | running every component's `handle_events` amounts to the menu's alone |
| App.ComponentUpdate | src/app.rs:252-256 | only the menu's `update` changes state or sends actions |
| App.UpdateOver | src/app.rs:252-256 | the broadcast over the components in order keeps the menu's selection in range |
| App.UpdateOverComponents | src/app.rs:252-256 | broadcasting to the five components is the menu's update; the other four change nothing |
| App.ActionEffect | src/app.rs:148-201 | `Tick` empties the buffer, `Quit` sets the quit flag, `Suspend`/`Resume` set/clear the suspend flag, `InstallNeovimNightly`, `InstallNeviraide` and `CheckDeps` each append their own info line and no other action touches the log; no action changes the mode or the menu |
| App.Dispatch | src/app.rs:148-256 | handling one action sends back at most one action, never `Select` or `Tick`, and only for `Select` |
| App.Drain | src/app.rs:144-257 | the drain terminates and keeps the menu's selection in range |
| App.DrainIsFifo | src/app.rs:144-257 | the actions queued are handled first, in queue order, before anything they send |
| App.DrainFlags | src/app.rs:196-201 | after a drain the quit flag is set iff a `Quit` was handled, the last `Suspend`/`Resume` decides the suspend flag, a `Tick` empties the buffer, and mode and items are unchanged |
| App.DrainKeepsSelection | src/app.rs:144-257 | a drain without `Prev`, `Next` or `Select` handles exactly the queue and leaves the selection alone |
| App.SelectingQuitQuits | src/app.rs:252-256 | selecting the "Quit" item with a registered menu sends `Quit`, which the same drain handles next, setting the quit flag |
| App.CheckDependenciesItemIsUnknown | src/app.rs:33 | the dispatcher's "Check dependencies" item selects an `Error`, not the dependency check |
| App.EventActions | src/app.rs:110-133 | `Quit`, `Render` and `Resize` events send their action, key events go through key resolution, every other event sends nothing; only the buffer changes |
| App.EventStep | src/app.rs:110-139 | an event only appends to the channel and keeps the state well formed |
| App.TickEventIsDropped | src/app.rs:110-133 | a `Tick` event sends nothing and changes nothing |
| App.Iteration | src/app.rs:109-267 | a pass stops iff the quit flag is set and the suspend flag is not; the channel then holds just `Resume` iff suspended |
| App.ResumeRestores | src/app.rs:259-263 | after a suspended pass, the next pass handles the queued `Resume` and restores the state with the suspend flag cleared |
| App.DownPressMovesTwice | src/app.rs:114-256 | with `Down` bound to `Next`, one press moves the menu selection two rows |
| App.RunFrom | src/app.rs:108-268 | the loop stops before the events run out only on a pass that leaves the quit flag set and the suspend flag clear |
| App.App.constructor | src/app.rs:29-59 | not quitting, not suspended, mode `Home`, empty buffer, the four menu items with the first selected, an empty info log |
| App.App.UpdateInfo | src/app.rs:273-282 | appends the message and a newline to the info log |
| App.App.HandleAction | src/app.rs:148-201 | the dispatcher's arm for one action performs `ActionEffect` in place |
| App.App.Broadcast | src/app.rs:252-256 | updating the components in list order agrees with `UpdateOver` |
| App.App.UpdateComponent | src/app.rs:253-255 | one component's `update` agrees with `ComponentUpdate` |
| App.App.HandleEvents | src/app.rs:135-139 | the components' `handle_events` in list order agree with `HandleEventsOver` |
| App.App.ComponentEvent | src/app.rs:136-138 | one component's `handle_events` agrees with `ComponentHandleEvent` |
| App.App.HandleEvent | src/app.rs:110-139 | the event half of a pass agrees with `EventStep` |
| App.App.SendEventActions | src/app.rs:110-133 | the dispatcher's event match agrees with `EventActions` |
| App.App.DrainChannel | src/app.rs:144-257 | the `try_recv` loop empties the channel, and its final state and trace are `Drain`'s |
| App.App.DispatchHead | src/app.rs:144-256 | takes the oldest action, handles and broadcasts it, and appends what comes back |
| App.App.RunIteration | src/app.rs:109-267 | one pass of the loop agrees with `Iteration` |
| App.App.Run | src/app.rs:61-271 | registers the menu's sender and runs passes, agreeing with `RunFrom` |
| AppLayout.AuxSlot | src/app.rs:301-316 | the progress slot is `Length(3)` iff the bar is visible and `Length(0)` iff it is not |
| AppLayout.UpdateUiPlan | src/app.rs:284-316 | the three splits of `update_ui`, with the progress slot chosen by visibility |
| AppLayout.StartPlanShowsProgress | src/app.rs:68-94 | the start-up layout is `update_ui`'s with the bar shown; a hidden bar only collapses that slot |
| AppLayout.SlotOf | src/app.rs:318-332 | each component is drawn into an unsplit region that exists in every plan |
| AppLayout.SlotAssignmentBijective | src/app.rs:318-332 | different components get different regions and every unsplit region gets a component |
| Colors.ColorCode | internal/utils/colors.go:38-40 | a named colour gives its table code, any other name gives nothing |
| Colors.StyleCode | internal/utils/colors.go:43-45 | a named style gives its table code, any other name gives nothing |
| Colors.ColorCodesDistinct | internal/utils/colors.go:15-20 | the four colour codes are five characters each and pairwise different |
| Colors.StyleCodesDistinct | internal/utils/colors.go:23-26 | the two style codes are four characters each and different |
| Colors.ColorLayout | internal/utils/colors.go:34-49 | the result is the colour code, then the style code, then the text, then ResetBold, ResetItalic, ColorDefault |
| Colors.ColorTextRoundTrip | internal/utils/colors.go:49 | for a fixed colour and style, the text is determined by the result |
| Colors.UnknownNamesContributeNothing | internal/utils/colors.go:38-45 | unknown colour and style names leave just the text and the resets |
| Colors.DifferentColorsDiffer | internal/utils/colors.go:38-49 | two different named colours give different results |
| ComponentsInfo.NewlineCountConcat | src/components/info.rs:36-39 | the newline count of a concatenation is the sum of the counts |
| ComponentsInfo.UpdateContentCount | src/components/info.rs:21-24 | one update raises the newline count by one plus the message's newlines |
| ComponentsInfo.ScrollOffset | src/components/info.rs:36-40 | the offset is at most the newline count, zero iff the count fits the height, and otherwise leaves exactly `height` lines below it |
| ComponentsInfo.ScrollRow | src/components/info.rs:45 | the offset as `u16` keeps the low 16 bits, and is exact below 65536 |
| ComponentsInfo.Info.constructor | src/components/info.rs:13-18 | the given title and empty content |
| ComponentsInfo.Info.UpdateContent | src/components/info.rs:21-24 | appends the message and a newline, keeps the title, and counts one more newline plus the message's |
| ComponentsInput.KeyEffect | src/components/input.rs:22-49 | Left/Right select Yes/No without touching visibility, Enter hides iff a button is selected, Esc hides, 'p' shows, every other key changes nothing |
| ComponentsInput.SelectionPersists | src/components/input.rs:22-49 | once a button is selected no key sequence unselects it |
| ComponentsInput.ChooseThenConfirmHides | src/components/input.rs:24-40 | an arrow then Enter closes the popup with the chosen button selected |
| ComponentsInput.Input.constructor | src/components/input.rs:51-58 | hidden, Yes selected, empty input, the given title |
| ComponentsInput.Input.HandleKey | src/components/input.rs:22-49 | performs `KeyEffect` in place, keeping a button selected and title and input unchanged |
| ComponentsInput.Input.Show | src/components/input.rs:60-62 | sets visibility and nothing else, so it is idempotent |
| ComponentsInput.Input.Hide | src/components/input.rs:64-66 | clears visibility and nothing else, so it is idempotent |
| ComponentsMenu.SelectAction | src/components/menu.rs:80-95 | the four known names map to their actions, every other name to `Error("Unknown menu item: " + name)` |
| ComponentsMenu.UpdateIndex | src/components/menu.rs:66-78 | `Prev` steps up unless at the top, `Next` steps down unless at the bottom, anything else keeps the index; an index in range stays in range |
| ComponentsMenu.KeyIndex | src/components/menu.rs:42-57 | Up and Down move exactly as `Prev` and `Next`; other keys keep the index |
| ComponentsMenu.SentOnUpdate | src/components/menu.rs:79-102 | one action is sent iff the action is `Select` and a sender is registered, and it is the selected item's action |
| ComponentsMenu.NextTimesSaturates | src/components/menu.rs:73-78 | `k` `Next`s from a valid index stop at the last item and never wrap |
| ComponentsMenu.NextPrevRestore | src/components/menu.rs:67-78 | away from the edges `Next` then `Prev` and `Prev` then `Next` restore the index |
| ComponentsMenu.Menu.constructor | src/components/menu.rs:18-28 | the given items, index 0, list selection `Some(0)`, no sender |
| ComponentsMenu.Menu.RegisterActionHandler | src/components/menu.rs:32-35 | registers the sender and changes nothing else |
| ComponentsMenu.Menu.HandleKeyEvents | src/components/menu.rs:42-63 | moves as `KeyIndex`, keeps the list state in step, returns `Select` for Enter and nothing otherwise |
| ComponentsMenu.Menu.Update | src/components/menu.rs:65-103 | moves as `UpdateIndex`, sends `SentOnUpdate`, always returns nothing |
| Dependency.NamesUnique | internal/dependencies/dependency.go:19-28 | in an alphabetically sorted table no two entries share a name |
| Dependency.DependenciesTable | internal/dependencies/dependency.go:19-28 | eight tools, none found yet, each probed by its name except ripgrep by "rg", names alphabetical |
| DependencyCheck.Probed | internal/dependencies/check.go:106-120 | each entry's flag becomes the probe's answer for its command; the other fields and the length stay |
| DependencyCheck.ProbedIdempotent | internal/dependencies/check.go:106-120 | probing twice is probing once |
| DependencyCheck.CheckCommandsAvailability | internal/dependencies/check.go:106-120 | updates the array in place to the probed list |
| DependencyCheck.Missing | internal/dependencies/check.go:28-34 | the missing count is at most the number of entries |
| DependencyCheck.NoneMissingIffAllExist | internal/dependencies/check.go:28-34 | nothing is missing iff every entry exists |
| DependencyCheck.AllMissingIffNoneExist | internal/dependencies/check.go:28-34 | everything is missing iff no entry exists |
| DependencyCheck.CountMissing | internal/dependencies/check.go:28-34 | the counting loop computes the number of missing entries |
| DependencyCheck.RowFor | internal/dependencies/check.go:50-64 | the row shows the green tick iff the entry exists, then its name, command and user |
| DependencyCheck.StatusTellsExistence | internal/dependencies/check.go:52-56 | the status mark tells existence apart |
| DependencyCheck.TableFor | internal/dependencies/check.go:40-94 | the fixed header, one row per entry in order, and the footer counting the missing of the total, or "All dependencies are present" when none is missing |
| DependencyCheck.AllPresentIffEveryProbeSucceeds | internal/dependencies/check.go:67-94 | the report says all are present iff every command's probe succeeds |
| DependencyCheck.NothingInstalled | internal/dependencies/check.go:67-84 | with no probe succeeding the footer counts 8 of 8 missing |
| DependencyCheck.BuildRows | internal/dependencies/check.go:50-64 | the row loop builds one row per entry in list order |
| DependencyCheck.Check | internal/dependencies/check.go:21-102 | probes in place, returns the updated list and the report table for it |
| Strings.StrLessIrreflexive | src/tui/keymaps.rs:13 | no string is below itself in the string order |
| Strings.StrLessTransitive | src/tui/keymaps.rs:13 | the string order is transitive |
| Strings.StrLessTotal | src/tui/keymaps.rs:13 | of two different strings one is below the other |
| Strings.StrLessCommonPrefix | src/tui/keymaps.rs:13 | a common prefix does not change the order |
| TuiApp.KeyToAction | src/tui/app.rs:140-146 | j/n/Down give `Next`, k/p/Up give `Previous`, Enter gives `Select`, q/Esc give `Quit`, and each only for those keys |
| TuiApp.EventAction | src/tui/app.rs:139-147 | non-key events send nothing, key events go through the key table |
| TuiApp.SentOn | src/tui/app.rs:138-147 | a poll sends at most one action, and only for a key event the table binds to it |
| TuiApp.SentFor | src/tui/app.rs:136-149 | at most one action is sent per poll, in poll order |
| TuiApp.SentComesFromKeys | src/tui/app.rs:139-146 | every action sent comes from a key event the table binds to it |
| TuiApp.EventHandler | src/tui/app.rs:134-150 | the polling loop, run forward over the polls, sends exactly `SentFor` of them |
| TuiApp.HandleActionSpec | src/tui/app.rs:113-131 | the three non-quit menu actions display their fixed message, `Quit` sets the flag and touches nothing else |
| TuiApp.Step | src/tui/app.rs:78-88 | `Next`/`Previous` only move the menu, `Select` performs the selected entry's action, `Quit` sets the flag, a closed channel changes nothing; the flag ends up set iff it was, or `Quit` came, or the Quit entry was selected |
| TuiApp.Replay | src/tui/app.rs:50-93 | applying the received values keeps the selection in range |
| TuiApp.RunSpec | src/tui/app.rs:50-96 | the loop consumes at least one value if there is one, and stops early only with the quit flag set |
| TuiApp.RunStopsAtFirstQuit | src/tui/app.rs:78-92 | the loop ends in the replay of what it consumed, and no shorter replay had set the quit flag |
| TuiApp.QuitIsLastConsumed | src/tui/app.rs:86-92 | the loop never consumes past the first `Quit` |
| TuiApp.App.constructor | src/tui/app.rs:37-43 | the standard menu with entry 0 selected, the initial message hidden, not quitting |
| TuiApp.App.HandleAction | src/tui/app.rs:113-131 | performs `HandleActionSpec` in place |
| TuiApp.App.Receive | src/tui/app.rs:78-88 | the match on one received value agrees with `Step` |
| TuiApp.App.Run | src/tui/app.rs:45-96 | the loop agrees with `RunSpec` |
| TuiKeymaps.DebugTextInjective | src/tui/keymaps.rs:11-15 | different keys have different debug text, so the order tells keys apart |
| TuiKeymaps.CharKeyOrder | src/tui/keymaps.rs:11-15 | character keys are ordered by their characters |
| TuiKeymaps.KeyLessIrreflexive | src/tui/keymaps.rs:11-21 | no key is below itself |
| TuiKeymaps.KeyLessTotal | src/tui/keymaps.rs:11-21 | of two different keys one is below the other |
| TuiKeymaps.KeyLessTransitive | src/tui/keymaps.rs:11-21 | the key order is transitive |
| TuiKeymaps.KeyLessStrictTotal | src/tui/keymaps.rs:11-21 | the key order is a strict total order |
| TuiKeymaps.LookupBound | src/tui/keymaps.rs:51-53 | a lookup finds nothing iff the key is unbound, and otherwise finds an entry of the table |
| TuiKeymaps.InsertKeys | src/tui/keymaps.rs:36-47 | an insertion adds its key to the bound keys |
| TuiKeymaps.InsertLookup | src/tui/keymaps.rs:36-47 | after an insertion the key has the new action and every other key keeps its own |
| TuiKeymaps.InsertSorted | src/tui/keymaps.rs:36-47 | insertion keeps the table in strict key order |
| TuiKeymaps.SortedUnique | src/tui/keymaps.rs:29-32 | two ordered tables with the same lookups are the same list |
| TuiKeymaps.DefaultEntriesSorted | src/tui/keymaps.rs:36-48 | the default table is in strict key order |
| TuiKeymaps.New | src/tui/keymaps.rs:35-49 | the nine insertions produce exactly the default table, in key order |
| TuiKeymaps.GetAction | src/tui/keymaps.rs:51-53 | nothing for an unbound key; otherwise the action bound to it |
| TuiKeymaps.DefaultAgreesWithEventHandler | src/tui/keymaps.rs:36-53 | the default table binds exactly the keys the event handler reacts to, to the same actions |
| TuiKeymaps.KeyDisplay | src/tui/keymaps.rs:58-65 | a character shows as itself, Up and Down as nothing (and only they), every other key as its debug name |
| TuiKeymaps.FormatBindings | src/tui/keymaps.rs:55-77 | the two loops and the join produce the help line `FormattedText` |
| TuiKeymaps.GroupByAction | src/tui/keymaps.rs:56-67 | the grouping loop maps each action with bindings to its displayed keys in table order, and no other action |
| TuiKeymaps.GroupsCountBindings | src/tui/keymaps.rs:56-67 | every binding appears once, in its own action's group, and the groups together count the bindings |
| TuiKeymaps.GroupKeysSnoc | src/tui/keymaps.rs:66 | a later binding adds its key at the end of its own action's group only |
| TuiKeymaps.DefaultGroups | src/tui/keymaps.rs:56-67 | the default groups: Select [Enter], Next [j, n, ""], Previous [k, p, ""], Quit [q, Esc] |
| TuiKeymaps.DefaultGroupLine | src/tui/keymaps.rs:69-74 | each default group renders as "Action: k1 \| k2 …" |
| TuiKeymaps.DefaultFormatting | src/tui/keymaps.rs:55-77 | the default help line is the four group lines in action order joined by five spaces |
| TuiMenu.GetMenuItems | src/tui/menu.rs:20-39 | four entries in order with their names and actions |
| TuiMenu.NextIndex | src/tui/menu.rs:53-65 | one down, the top after the last entry, the top when nothing is selected; always in range |
| TuiMenu.PrevIndex | src/tui/menu.rs:67-79 | one up, the last entry from the top, the top when nothing is selected; in range |
| TuiMenu.NextThenPrevious | src/tui/menu.rs:53-79 | `next` then `previous` restores the selection |
| TuiMenu.PreviousThenNext | src/tui/menu.rs:53-79 | `previous` then `next` restores the selection |
| TuiMenu.NextTimes | src/tui/menu.rs:53-65 | any number of `next` calls keeps the selection in range |
| TuiMenu.NextTimesAdd | src/tui/menu.rs:53-65 | `a` then `b` calls of `next` are `a + b` calls |
| TuiMenu.NextTimesDown | src/tui/menu.rs:53-65 | away from the bottom, `k` calls move `k` entries down |
| TuiMenu.FullCycleRestores | src/tui/menu.rs:53-65 | as many calls of `next` as entries come back to the start |
| TuiMenu.Menu.constructor | src/tui/menu.rs:47-51 | the given entries with entry 0 selected |
| TuiMenu.Menu.Next | src/tui/menu.rs:53-65 | selects `NextIndex` of the old selection and keeps the entries |
| TuiMenu.Menu.Previous | src/tui/menu.rs:67-79 | selects `PrevIndex` of the old selection and keeps the entries |
| TuiMenu.Menu.Select | src/tui/menu.rs:81-83 | the selected entry's action (entry 0 if none), with no change of state |
| TuiNeviraller.FirstQuitPress | src/tui/neviraller.rs:44-61 | the position of the first 'q' press: none before it, and it is one if in range |
| TuiNeviraller.FirstQuitPressIgnoresLater | src/tui/neviraller.rs:27-33 | events after the first quit press do not move it |
| TuiNeviraller.FirstQuitPressAt | src/tui/neviraller.rs:27-33 | where the loop stops is the first quit press, or the end when there is none |
| TuiNeviraller.Neviraller.constructor | src/tui/neviraller.rs:19-23 | no dependencies, not exiting |
| TuiNeviraller.Neviraller.Exit | src/tui/neviraller.rs:35-37 | sets the flag (idempotent) and keeps the dependency list |
| TuiNeviraller.Neviraller.HandleKeyEvent | src/tui/neviraller.rs:55-61 | 'q' sets the exit flag, every other key changes nothing; always Ok |
| TuiNeviraller.Neviraller.HandleEvents | src/tui/neviraller.rs:44-53 | only key presses reach the key handler; everything else is Ok with no change |
| TuiNeviraller.Neviraller.Run | src/tui/neviraller.rs:27-33 | loops while the flag is clear: reads events up to and including the first quit press and none after it |
| TuiUi.UI.constructor | src/tui/ui/mod.rs:18-23 | the given message, not shown |
| TuiUi.UI.SetUpdateMessage | src/tui/ui/mod.rs:25-28 | the message becomes the argument and is shown; idempotent |
| TuiUi.UI.ClearUpdateMessage | src/tui/ui/mod.rs:30-32 | hides the message and keeps its text; idempotent |
| TuiWidgetParams.New | src/tui/ui/widget_params.rs:17-26 | the text, left-aligned, all borders, no title, white, no modifier |
| TuiWidgetParams.WithAlignment | src/tui/ui/widget_params.rs:28-31 | changes only the alignment |
| TuiWidgetParams.WithBorders | src/tui/ui/widget_params.rs:33-36 | changes only the borders |
| TuiWidgetParams.WithTitle | src/tui/ui/widget_params.rs:38-41 | the title becomes present with the text; nothing else changes |
| TuiWidgetParams.WithColor | src/tui/ui/widget_params.rs:43-46 | changes only the colour |
| TuiWidgetParams.WithModifier | src/tui/ui/widget_params.rs:48-51 | changes only the modifier |
| TuiWidgetParams.FooterParams | src/tui/ui/mod.rs:62-65 | the footer's parameters: the quit hint, centred, all borders, title "Footer", grey |
| TuiWidgetParams.InfoParams | src/tui/ui/mod.rs:70-74 | the additional-info pane's chain re-applies the defaults, so it equals the defaults with the title "Additional Info" |
| TuiWidgetParams.ContentParams | src/tui/app.rs:106-109 | the main area's content parameters are the defaults with the title "Content" |
| TuiWidgetParams.HeaderParams | src/tui/ui/mod.rs:54-57 | the header's parameters: "NEVIRAIDE", centred, all borders, title "Main Header", yellow |
| VerCompare.LineEnd | src/neovim_nightly/ver_compare.rs:10-13 | the first line feed, or the end: no line feed before it |
| VerCompare.FirstLineOfTerminated | src/neovim_nightly/ver_compare.rs:10-13 | the first line of a terminated line is that line, whatever follows |
| VerCompare.WordsFrom | src/neovim_nightly/ver_compare.rs:15-18 | `split_whitespace` yields only non-empty words without whitespace |
| VerCompare.Words | src/neovim_nightly/ver_compare.rs:15-18 | the words of a line are non-empty and free of whitespace |
| VerCompare.WordsFromSplit | src/neovim_nightly/ver_compare.rs:15-18 | a whitespace character splits the words into those of either side |
| VerCompare.WordsOfWord | src/neovim_nightly/ver_compare.rs:15-18 | a single word is its only word |
| VerCompare.WordsOfTwo | src/neovim_nightly/ver_compare.rs:15-18 | two words separated by whitespace are the two words |
| VerCompare.CheckNeovimVersion | src/neovim_nightly/ver_compare.rs:10-33 | each outcome iff its condition: no output iff the first message; fewer than two words iff the parse message; no new line iff "problem1"; the second word equal to the new first line iff "Already up to date"; `Ok(())` iff both are present and differ |
| VerCompare.OnlyFirstLinesMatter | src/neovim_nightly/ver_compare.rs:10-22 | what follows the first line of either input never changes the result |
| VerCompare.BannerComparison | src/neovim_nightly/ver_compare.rs:15-27 | on a "NVIM version" banner, up to date iff the new line is that version, success otherwise |
| VerCompare.SpacedReleaseLineNeverMatches | src/neovim_nightly/ver_compare.rs:15-27 | a release line with a space in its first line is never "up to date" |

## Left out

- Terminal I/O is not modelled: raw mode, the alternate screen, drawing and suspending the terminal. Events are given as finite sequences, and the loops stop when those run out.
- The rectangles computed by ratatui's layout solver are not modelled, and neither is any rendering (`draw`, the panes, the header, footer and progress components). Only the choice of constraints and the region of each component are modelled.
- The async machinery is reduced to sequences. The tokio channel is a sequence of actions, and the tick and render producers, `spawn` and `sleep` are left out. Sending never fails in the model: the panics of `tx.send(...).unwrap()` in the older front end's `event_handler` and the errors `action_tx.send(...)?` returns in the dispatcher, both on a closed channel, are not modelled.
- `InstallNeovimNightly` in the dispatcher is modelled only by the info line it writes first. The rest of that arm scrapes the network, compares versions, sleeps and updates a float progress bar.
- The progress bar's visibility is a plain field of the dispatcher that no modelled action changes. Its float progress is not modelled.
- Loading the configuration is left out. The key bindings are a parameter of the dispatcher's constructor, and only the `Home` mode exists.
- Key modifiers are left out: a key event is its code and its kind.
- Keys.KeyCode has the unit key codes, `Char` and `Null`, but not crossterm's `F(n)`, `CapsLock`, `ScrollLock`, `NumLock`, `PrintScreen`, `Pause`, `Menu`, `KeypadBegin`, `Media(..)` and `Modifier(..)`. So the debug text, the key order and the help line's fallback display cover that smaller set of keys.
- Action's derived equality (src/action.rs:4) is Dafny's structural equality on the `Action` datatype, so it needs no lemma of its own.
- Logging (`log::info!`, `log::debug!`, `log::warn!`) and `println!` are left out, because they change no state.
- The component trait's own source file is not part of this model. Components that do not override `handle_events` or `update` are taken to return nothing, and `handle_events` is taken to pass key events to `handle_key_events`.
- Only the menu's action sender is registered. The other components never send.
- `register_config_handler` is left out, because the menu only stores the configuration.
- The `tui` front end's `Action` enum has no derives in its source. The help line needs `Ord` and `Debug`, so the model takes the derived ones: declaration order, and the variant name.
- TuiKeymaps.DebugText renders `Char(c)` as `Char('c')` without Rust's escaping of quotes, backslashes and control characters.
- TuiNeviraller.Neviraller.Run does not model a failing `draw` or a failing event read, which end the source's loop with an error.
- VerCompare.CheckNeovimVersion takes the output of `nvim --version` as a string. Starting the process and decoding its bytes as UTF-8 (and that error) are not modelled.
- Colors.Color returns the format string passed to `fmt.Sprintf`. The substitution of the arguments is not modelled, so the missing-count footer keeps its format string and its two integers.
- DependencyCheck.Check does not model `RequestSudo`, drawing the table or printing it.
- The `which` probe is an oracle function from command to success.
- The Go installer's interactive prompts, the installation commands, the scraping, the package managers and the CLI flags are left out: they are prompts, shell commands and network access.
