# JavaScript playground core, modelled in Dafny

This project models the state machine behind the playground's editor component,
`components/code-editor.tsx`. The model covers:

- the tab bar (add, close, rename, edit, reset, read the current code);
- the list of enabled packages and its toggle;
- the console sink a script writes to (`log`, `error`, `clear`);
- the stubs that stand in for disabled packages;
- `executeCode`, which clears the sink, skips blank scripts, builds the script's scope and
  lets the script's calls land in the sink;
- the single debounce slot that `handleEditorChange` fills.

React's state setters are treated as immediate assignments.

The modules follow the structure of the component:

- `Text` (`text.dfy`): `trim`, `endsWith`, `join` and the decimal rendering of the tab
  counter.
- `Tabs` (`tabs.dfy`): the tab records and every tab-list update. Each update is a function
  from the old list to the new one, as the source builds each new list with `map`, `filter`
  or spread.
  - The invariant `Tabs.Valid` holds that there is at least one tab, the ids are distinct,
    every id is `tab-k` for some k at most the counter, and the active id names a tab.
- `Packages` (`packages.dfy`): `AVAILABLE_PACKAGES` and the enabled-list toggle.
- `Console` (`console.dfy`): the sink state (the line buffer, the displayed text, the error
  text) and the effect of `log`, `error` and `clear` on it.
- `Harness` (`harness.dfy`): one run of a script.
  - The scope is the console plus a real library or a stub for each available package.
  - The host compiles and runs the script. Its report is an abstract `Outcome`: a compile
    error, or the ordered list of calls the script made into its scope.
  - `Run` is the sink state that `executeCode` leaves.
- `Playground` (`playground.dfy`): the component as the class `CodeEditor`.
  - Its fields are the tab list, the active id, `nextTabId`, the enabled list, the line
    buffer, the displayed output, the error text and the pending debounce run.
  - Each handler is a method that updates those fields in place and is proved against the
    functions above.
  - `createContext`'s `forEach` and the dispatch of the script's calls are loops with
    invariants.
  - Every handler keeps `Valid()`, the tab-bar invariant plus distinct enabled names plus a
    display that is either the joined buffer or the blank-editor placeholder. `ActivateTab`
    keeps it for an id that names a tab, which is the only id the tab strip passes.
- `Wrappers` (`wrappers.dfy`): `Option`, used for saved settings that may be absent and for
  the empty timer slot.

The effect that reruns the active tab's code whenever the active id or the package list
changes (code-editor.tsx lines 105-107) is performed at the end of the handlers that change
them:

- `AddNewTab`, `CloseTab` and `ActivateTab` rerun the code when the active id changed;
- `HandlePackageToggle` always reruns it, since the toggle always produces a new array.

`executeCode` is recreated for every package list, so the model passes it the enabled list
explicitly. A pending debounce run keeps the list of the render that scheduled it.

Two details of the code that the model keeps:

- A blank script leaves the line buffer empty and sets only the displayed text to the
  placeholder; no line is added.
- An error a script throws is reported through `console.error`, so its line carries the
  `ReferenceError: ` label whatever the error's type.

## Model

| member | source | states |
|---|---|---|
| Text.Trim | components/code-editor.tsx:159 | `trim` yields "" exactly when every character of the script is JavaScript whitespace or a line terminator |
| Text.TrimmedEnds | components/code-editor.tsx:159 | what `trim` leaves neither starts nor ends with whitespace |
| Text.Join | components/code-editor.tsx:121 | `join` of the buffer; `JoinSnoc` states that one more line adds the separator and that line to the old text |
| Text.EndsWith | components/code-editor.tsx:259 | `endsWith`; `JsName` states that a name passing it is kept and any other gets `.js` appended |
| Text.JoinSnoc | components/code-editor.tsx:120-121 | joining a buffer with one more line gives the old joined text, the separator and the new line, so earlier output is a prefix of later output |
| Text.NatToStringDigits | components/code-editor.tsx:220 | the decimal rendering of the counter consists of digits only, is a single digit exactly below ten, and ends in the last digit |
| Text.IntToString | components/code-editor.tsx:220 | the template literal's rendering of the counter; its own ensures only unfold the sign case split, and what it means is stated by `IntToStringInjective` and `LeadingChar`: the rendering tells values apart and starts with `-` exactly for negatives |
| Text.IntToStringInjective | components/code-editor.tsx:220 | different counter values render to different strings |
| Tabs.TabId | components/code-editor.tsx:220 | the id `tab-k` of the k-th tab; `TabIdInjective` and `TabIdDistinct` state that ids and counter values determine each other |
| Tabs.TabIdInjective | components/code-editor.tsx:220 | two equal ids `tab-a` and `tab-b` come from equal counter values |
| Tabs.TabIdDistinct | components/code-editor.tsx:220 | different counter values give different ids |
| Tabs.InitialValid | components/code-editor.tsx:64-74 | the start-up bar `[main.js]`, active `tab-1`, counter 1 satisfies the tab invariant |
| Tabs.AddTab | components/code-editor.tsx:219-229 | appends exactly one tab with id `tab-(n+1)`, name `untitled.js` and content `// Start coding here\n`; the earlier tabs are kept in order; the counter grows by one; the new id becomes active |
| Tabs.IssuedNotNext | components/code-editor.tsx:220-221 | an id the counter has issued is never the next `tab-(n+1)` |
| Tabs.IssuedLater | components/code-editor.tsx:221 | raising the counter keeps every issued id issued |
| Tabs.AllIssuedNext | components/code-editor.tsx:220-221 | after the counter grows every tab id is still issued, and the id handed out is not among the tab ids |
| Tabs.AppendFresh | components/code-editor.tsx:227 | appending a tab with a new issued id keeps ids distinct and issued, and adds exactly that id at the end of the id list |
| Tabs.AddTabKeepsValid | components/code-editor.tsx:219-229 | adding a tab keeps the tab invariant, and the new active id differs from every old id |
| Tabs.AddTabCurrentCode | components/code-editor.tsx:225-228 | after adding a tab, the current code is the untitled tab's content |
| Tabs.Without | components/code-editor.tsx:234 | the filter never lengthens the list |
| Tabs.WithoutMembers | components/code-editor.tsx:234 | the filter keeps exactly the tabs whose id differs from the closed id |
| Tabs.WithoutAbsent | components/code-editor.tsx:234 | filtering out an id no tab has leaves the list unchanged |
| Tabs.WithoutAt | components/code-editor.tsx:234 | with distinct ids, filtering out the id of tab k removes exactly tab k and keeps the others in order |
| Tabs.Close | components/code-editor.tsx:231-240 | closing never touches the id counter; its other effects are stated by the lemmas below |
| Tabs.CloseSingle | components/code-editor.tsx:233 | with one tab, closing is a no-op |
| Tabs.CloseAbsent | components/code-editor.tsx:231-240 | closing an id that no tab has and that is not active changes nothing |
| Tabs.CloseAt | components/code-editor.tsx:233-238 | with distinct ids and more than one tab, closing tab k removes exactly that tab, keeps the others in order, moves the active id to the first remaining tab exactly when tab k was active, and does not fault |
| Tabs.DropKeeps | components/code-editor.tsx:234 | dropping one tab keeps every other tab in order and keeps the ids distinct and issued |
| Tabs.CloseAtKeepsValid | components/code-editor.tsx:233-238 | closing an existing tab of a valid bar with more than one tab keeps the invariant and does not fault |
| Tabs.CloseKeepsValid | components/code-editor.tsx:231-240 | on a valid bar, closing never faults at `newTabs[0]` and keeps the invariant, so the list never becomes empty |
| Tabs.AddThenClose | components/code-editor.tsx:219-240 | closing the tab just added restores the old list and activates its first tab |
| Tabs.StartEditing | components/code-editor.tsx:242-250 | names, contents and ids stay; a tab is being edited exactly when its id is the given one |
| Tabs.StopEditing | components/code-editor.tsx:270-272 | names, contents and ids stay; no tab is being edited |
| Tabs.StartThenStop | components/code-editor.tsx:242-272 | cancelling after starting a rename gives the same tabs as cancelling at once |
| Tabs.JsName | components/code-editor.tsx:259 | the stored name ends in `.js`; it is the typed name when that already ends in `.js`, and the typed name plus `.js` otherwise |
| Tabs.Renamed | components/code-editor.tsx:252-268 | a blank name gives `cancelRename`'s result; any other name renames exactly the tabs with the id and ends their edit, and leaves every other tab unchanged |
| Tabs.WithContent | components/code-editor.tsx:206-207 | only the content of the tabs with the given id changes, to the given text |
| Tabs.CurrentCode | components/code-editor.tsx:274-276 | `getCurrentCode` on the tab list; `CurrentCodeFirst`, `CurrentCodeAbsent` and `ContentRoundTrip` state its value |
| Tabs.CurrentCodeFirst | components/code-editor.tsx:274-276 | the current code is the content of the first tab carrying the active id |
| Tabs.CurrentCodeAbsent | components/code-editor.tsx:274-276 | with no tab carrying the active id, the current code is "" |
| Tabs.ContentRoundTrip | components/code-editor.tsx:206-207 | the text an edit stores in an existing tab is what the current code then returns |
| Tabs.SameIdsKeepValid | components/code-editor.tsx:244-249 | a `map` over the tabs that keeps every id keeps the tab invariant |
| Packages.Removed | components/code-editor.tsx:343 | the filter never lengthens the list |
| Packages.RemovedMembers | components/code-editor.tsx:343 | the filter keeps exactly the other names, and keeps them distinct |
| Packages.RemovedAppend | components/code-editor.tsx:343 | filtering a name off a list that ends with its only occurrence drops that end |
| Packages.Toggled | components/code-editor.tsx:341-344 | `handlePackageToggle`'s update; `ToggleFlips`, `ToggleKeepsDistinct`, `ToggleTwiceAbsent` and `ToggleTwicePresent` state what it does to the list |
| Packages.ToggleFlips | components/code-editor.tsx:342-344 | a toggle flips whether the name is enabled and leaves every other name's membership unchanged |
| Packages.ToggleKeepsDistinct | components/code-editor.tsx:342-344 | a toggle never introduces a duplicate |
| Packages.ToggleTwiceAbsent | components/code-editor.tsx:342-344 | enabling an absent name and disabling it again restores the exact list |
| Packages.ToggleTwicePresent | components/code-editor.tsx:342-344 | disabling an enabled name and enabling it again moves it to the end of the list |
| Console.Logged | components/code-editor.tsx:114-122 | `log` appends exactly one line, the joined renderings; the earlier lines and the error text stay; the display is the joined buffer |
| Console.Errored | components/code-editor.tsx:123-128 | `error` appends exactly one line, `ReferenceError: ` plus the joined text; the error text becomes the joined text; the display is the joined buffer |
| Console.LogText | components/code-editor.tsx:115-119 | `log`'s line: each argument rendered on its own, joined by one space; `SingleText` and `TwoPrimitives` state its value on one and two primitives |
| Console.ErrorText | components/code-editor.tsx:124 | `error`'s text: each argument converted with `String`, joined by one space; `SingleText` states that one string passes unchanged |
| Console.LoggedDisplay | components/code-editor.tsx:120-121 | after `log` the display is the old display, a newline and the new line; on an empty buffer it is just the new line |
| Console.ErroredDisplay | components/code-editor.tsx:125-126 | the same display growth for `error`, with the label in front of the new line |
| Console.SingleText | components/code-editor.tsx:115-124 | a single string argument is passed through unchanged by `log` and by `error` |
| Console.TwoPrimitives | components/code-editor.tsx:115-119 | two primitive arguments are joined by one space (`hi 42`) |
| Harness.Resolve | components/code-editor.tsx:168-172 | a package name is bound to its library exactly when it is enabled, and to the stub named after it otherwise |
| Harness.ContextFor | components/code-editor.tsx:164-176 | the scope holds exactly `console` and the six available names; `console` is the sink; each package name is resolved against the enabled list |
| Harness.Step | components/code-editor.tsx:113-151 | the effect of one script call on the sink; `StepLines`, `TouchLines` and `TouchDisabled` state which lines it adds |
| Harness.Replay | components/code-editor.tsx:194-195 | the script's calls applied in order; `ReplaySnoc`, `ReplayAppends` and `ReplayShown` state their effect |
| Harness.ReplaySnoc | components/code-editor.tsx:194-195 | replaying one more call is one more step on the sink |
| Harness.Run | components/code-editor.tsx:153-203 | the sink `executeCode` leaves; `RunBlank`, `RunCompileError`, `RunLines` and `RunDisplayed` state it for the three kinds of script |
| Harness.Settle | components/code-editor.tsx:194-199 | the host's report landing on the sink; `RunCompileError` and `RunLines` state its two cases after a clear |
| Harness.RunSettles | components/code-editor.tsx:155-199 | unfolds `Run` for a non-blank script: it starts from the cleared sink and is compiled against the scope of the enabled list; the results of a run are stated by `RunBlank`, `RunCompileError` and `RunLines` |
| Harness.StepLines | components/code-editor.tsx:113-151 | every call except `clear` keeps the earlier lines and adds its own lines after them |
| Harness.ReplayAppends | components/code-editor.tsx:120-125 | without a `clear`, a run only appends: the old lines stay and the new ones follow in call order |
| Harness.ReplayShown | components/code-editor.tsx:121-126 | each call leaves the display equal to the joined buffer |
| Harness.RunDisplayed | components/code-editor.tsx:153-203 | after any run the display is the joined buffer or the placeholder over an empty buffer |
| Harness.RunBlank | components/code-editor.tsx:159-162 | a blank script leaves an empty buffer, an empty error text and exactly the placeholder on display |
| Harness.RunCompileError | components/code-editor.tsx:196-199 | a script that does not compile leaves exactly one line, the label and the message, whatever was there before |
| Harness.RunLines | components/code-editor.tsx:155-195 | a script that runs without `clear` leaves exactly the lines of its calls, in order, and nothing from earlier runs |
| Harness.TouchLines | components/code-editor.tsx:136-151 | a read or call on a disabled package adds exactly one line, its diagnostic; on an enabled one it adds none; enabling the package silences it |
| Harness.TouchDisabled | components/code-editor.tsx:136-151 | a stub's diagnostic takes the error path: the line carries the label and the error text becomes the diagnostic |
| Harness.EnabledTouchesSilent | components/code-editor.tsx:136-172 | a script that touches no disabled package (only `console`, enabled packages or names outside the scope) leaves the same sink as its console calls alone |
| Playground.CodeEditor.GetCurrentCode | components/code-editor.tsx:274-276 | `getCurrentCode` on the component's fields, the `CurrentCode` of its tabs and active id |
| Playground.CodeEditor.constructor | components/code-editor.tsx:59-84 | saved tabs, active id, counter and packages replace the defaults when present (an empty saved active id counts as absent); the active tab's code runs; with nothing saved the state is valid |
| Playground.CodeEditor.ConsoleLog | components/code-editor.tsx:114-122 | the sink becomes `Logged` of the old sink; tabs, packages and the timer slot stay |
| Playground.CodeEditor.ConsoleError | components/code-editor.tsx:123-128 | the sink becomes `Errored` of the old sink; tabs, packages and the timer slot stay |
| Playground.CodeEditor.ConsoleClear | components/code-editor.tsx:129-133 | the buffer, the display and the error text are emptied; nothing else changes |
| Playground.CodeEditor.StubGet | components/code-editor.tsx:138-143 | a read on a stub reports the diagnostic once and returns a stub for the same package |
| Playground.CodeEditor.StubCall | components/code-editor.tsx:144-149 | a call on a stub reports the diagnostic once |
| Playground.CodeEditor.CreateContext | components/code-editor.tsx:164-176 | the loop builds exactly `ContextFor` of the given enabled list |
| Playground.CodeEditor.Dispatch | components/code-editor.tsx:194-195 | the script's calls land on the sink one by one, in order, as `Replay` describes |
| Playground.CodeEditor.Settle | components/code-editor.tsx:194-199 | a compile error goes to `console.error`; a run's calls are dispatched |
| Playground.CodeEditor.RunScript | components/code-editor.tsx:155-199 | the non-blank path: clear, build the scope, compile and run; only the sink changes |
| Playground.CodeEditor.ExecuteCode | components/code-editor.tsx:153-203 | the sink becomes `Run` of the script and the enabled list; only the sink changes; the display is the joined buffer or the placeholder |
| Playground.CodeEditor.HandleEditorChange | components/code-editor.tsx:205-217 | only the active tab's content changes; the slot holds exactly one run, of the new text, replacing any earlier one; the invariant is kept |
| Playground.CodeEditor.FirePending | components/code-editor.tsx:214-216 | the waiting run, if any, executes with the package list it was scheduled with, and the slot empties |
| Playground.CodeEditor.AddNewTab | components/code-editor.tsx:219-229 | the bar becomes `AddTab` of the old one; on a valid state the active id changes, the invariant is kept and the untitled tab's code runs |
| Playground.CodeEditor.CloseTab | components/code-editor.tsx:231-240 | the bar becomes `Close` of the old one; the fault is reported exactly when there is more than one tab, the closed id is the active one and every tab carries it; on a valid state there is no fault and the invariant is kept; the code reruns when the active id changed |
| Playground.CodeEditor.ActivateTab | components/code-editor.tsx:376 | the clicked id becomes active, and its code runs when that changes the active id |
| Playground.CodeEditor.StartRenaming | components/code-editor.tsx:242-250 | the tabs become `StartEditing` of the old ones; nothing else changes |
| Playground.CodeEditor.HandleRename | components/code-editor.tsx:252-268 | the tabs become `Renamed` of the old ones; nothing else changes |
| Playground.CodeEditor.CancelRename | components/code-editor.tsx:270-272 | the tabs become `StopEditing` of the old ones; nothing else changes |
| Playground.CodeEditor.ClearCode | components/code-editor.tsx:278-284 | the active tab's content becomes the welcome program, which then is the current code and runs |
| Playground.CodeEditor.RunCode | components/code-editor.tsx:331-334 | the current code runs; only the sink changes |
| Playground.CodeEditor.HandlePackageToggle | components/code-editor.tsx:340-350 | the enabled list becomes `Toggled` of the old one, the current code reruns with the new scope, and the invariant is kept |

## Left out

- Compiling and running the script (`AsyncFunction`, lines 193-195) and the wrapping of the
  script in a `try`/`catch` (lines 184-190) belong to the host. They enter as the abstract
  function `Host`, whose `Outcome` is a compile error or the ordered calls the script made.
- `JSON.stringify(arg, null, 2)` and `String(arg)` for objects (lines 117, 124) are the
  abstract renderers `Renderers.pretty` and `Renderers.plain`. Primitives are carried as
  their `String` text.
- The host is deterministic: a run's outcome depends only on the script and its scope.
  Scripts that read the time, call `Math.random()` or wait on the network are modelled only
  through that one fixed outcome, so rerunning a script under the same scope leaves the same
  sink.
- Fire-and-forget runs are not modelled. A run's calls are applied in one go, so output that
  arrives late from an earlier run after a newer run started is not captured.
- The timer is not modelled: neither the 750 ms delay nor `setTimeout`/`clearTimeout`. Only
  the single pending slot is kept, and `FirePending` is the timer going off.
- localStorage and `JSON.parse` (lines 59-92, 345) are not modelled. The saved values enter
  the constructor as `Option` inputs, already parsed. A saved counter that `parseInt` turns
  into `NaN` is not modelled.
- The persist effect (lines 86-92) is not modelled: it writes to storage only.
- The scroll effect (lines 94-103) is not modelled.
- Toasts, clipboard, `navigator.share`, the download and the theme toggle (lines 109-111 and
  283-338) are not modelled, and neither is the JSX.
- The second blank check at lines 179-182 is unreachable after line 159, so it is not
  modelled separately.
- `Thrown` carries `String(error.message)` of what the script threw, so `throw "boom"` is
  `Thrown("undefined")`. A `throw null`, whose catch itself throws, ends the trace with no
  line. The non-`Error` branch at line 197 cannot be reached: only the `AsyncFunction`
  constructor's syntax error gets to the outer catch, and it is an `Error`.
- The renderers `JSON.stringify` and `String` are taken to be total and free of effects.
  The conversions that throw (a circular object or a BigInt inside an object for `log`, an
  object without a prototype for `error`, lines 117 and 124) append no line in the source
  and jump to the wrapper's catch at lines 187-188. The host reports them as a `Thrown`
  event in place of the `Log` or `Error` event. The reads and calls a conversion makes on a
  stub (`console.log(axios)` with axios disabled reads `Symbol.toPrimitive` and calls what
  it gets) are reported as `Touch` events before that event.
- The closure that the toast reads the old package list through (line 349) is not modelled.
  `handlePackageToggle`'s update is modelled as immediate.
- Monaco's `undefined` editor value is modelled as "". Every reader of the content treats
  both the same way.
- `isEditing` being absent is modelled as `false`.
- `nextTabId` is an unbounded integer. JavaScript's number precision limit on the counter is
  not modelled.
- Playground.CodeEditor.constructor: proves the invariant only when nothing was saved,
  because saved tabs may be any parsed value (duplicate ids, an active id without a tab).
- Playground.CodeEditor.CloseTab: when there is more than one tab, the closed id is the
  active one and every tab carries it, the source's
  TypeError is reported as `fault`. The filtered list set just before the throw stays and the
  active id is untouched, but the exception itself does not propagate.
- Playground.CodeEditor.ActivateTab: keeps the invariant only for an id that names a tab,
  which is what the tab strip passes.
- components/editor-tab.tsx, components/editor-toolbar.tsx, components/terminal-header.tsx,
  components/terminal-output.tsx and app/page.tsx are not part of this model: they only
  render and forward callbacks.
