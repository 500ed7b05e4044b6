/**
 * The playground component as one object: the tab bar, the enabled packages, the console
 * sink and the single debounce slot are fields, and every handler is a method that updates
 * them in place. React's state setters are treated as immediate assignments, and the effect
 * that reruns the active tab's code whenever the active id or the package list changes is
 * performed at the end of the handlers that change them.
 */
module Playground {
  import opened Wrappers
  import opened Text
  import opened Tabs
  import opened Packages
  import opened Console
  import opened Harness

  class CodeEditor {
    var tabs: seq<Tab>
    var activeTab: string
    var nextTabId: int
    var packages: seq<string>
    /** `outputRef.current`, the lines written since the last clear. */
    var lines: seq<string>
    var output: string
    var error: string
    /** `timeoutRef.current`: the run the debounce timer will start, if any. */
    var pending: Option<PendingRun>

    /** The script runner and the two renderings of objects, fixed for the component's life. */
    const host: Host
    const render: Renderers

    function Bar(): TabBar
      reads this
    {
      TabBar(tabs, activeTab, nextTabId)
    }

    function Sink(): SinkState
      reads this
    {
      SinkState(lines, output, error)
    }

    /** What every handler keeps: a well-formed tab bar, distinct enabled names, and a display
        that is either the joined buffer or the empty-editor placeholder. */
    ghost predicate Valid()
      reads this
    {
      && Tabs.Valid(Bar())
      && NoDuplicates(packages)
      && Displayed(Sink())
    }

    /** `getCurrentCode()`. */
    function GetCurrentCode(): string
      reads this
    {
      CurrentCode(tabs, activeTab)
    }

    /** Mounting the component: the saved tabs, active id, counter and package list replace
        the defaults when present (an empty saved active id counts as absent), and since the
        active id always changes from "" on load, the restored active tab's code is run. */
    constructor (host: Host, render: Renderers, savedTabs: Option<seq<Tab>>,
                 savedActive: Option<string>, savedNextId: Option<int>,
                 savedPackages: Option<seq<string>>)
      ensures tabs == savedTabs.GetOr([MainTab])
      ensures activeTab == if savedActive.Some? && savedActive.value != "" then savedActive.value else "tab-1"
      ensures nextTabId == savedNextId.GetOr(1)
      ensures packages == savedPackages.GetOr([])
      ensures pending == None
      ensures this.host == host && this.render == render
      ensures Sink() == Run(CurrentCode(tabs, activeTab), packages, host, render)
      ensures savedTabs == None && savedActive == None && savedNextId == None && savedPackages == None
        ==> Valid()
    {
      this.host := host;
      this.render := render;
      tabs := savedTabs.GetOr([MainTab]);
      activeTab := if savedActive.Some? && savedActive.value != "" then savedActive.value else "tab-1";
      nextTabId := savedNextId.GetOr(1);
      packages := savedPackages.GetOr([]);
      lines, output, error := [], "", "";
      pending := None;
      new;
      ExecuteCode(CurrentCode(tabs, activeTab), packages);
      if savedTabs == None && savedActive == None && savedNextId == None && savedPackages == None {
        InitialValid();
        RunDisplayed(CurrentCode(tabs, activeTab), packages, host, render);
      }
    }

    /** `customConsole.log(...args)`. */
    method ConsoleLog(args: seq<Arg>)
      modifies this
      ensures Sink() == Logged(old(Sink()), render, args)
      ensures Bar() == old(Bar()) && packages == old(packages) && pending == old(pending)
    {
      lines := lines + [LogText(render, args)];
      output := Join(lines, "\n");
    }

    /** `customConsole.error(...args)`. */
    method ConsoleError(args: seq<Arg>)
      modifies this
      ensures Sink() == Errored(old(Sink()), render, args)
      ensures Bar() == old(Bar()) && packages == old(packages) && pending == old(pending)
    {
      var formatted := ErrorText(render, args);
      lines := lines + [ErrorPrefix + formatted];
      output := Join(lines, "\n");
      error := formatted;
    }

    /** `customConsole.clear()`. */
    method ConsoleClear()
      modifies this
      ensures Sink() == Cleared
      ensures Bar() == old(Bar()) && packages == old(packages) && pending == old(pending)
    {
      lines := [];
      output := "";
      error := "";
    }

    /** A property read on the stub of a disabled package: one diagnostic, and a stub for the
        same package comes back, so a chain of reads reports once per step. */
    method StubGet(name: string, property: string) returns (proxy: Binding)
      modifies this
      ensures proxy == Stub(name)
      ensures Sink() == Errored(old(Sink()), render, [Prim(DisabledMessage(name))])
      ensures Bar() == old(Bar()) && packages == old(packages) && pending == old(pending)
    {
      ConsoleError([Prim(DisabledMessage(name))]);
      proxy := Stub(name);
    }

    /** A call of the stub of a disabled package: one diagnostic, and the call yields
        `undefined`. */
    method StubCall(name: string)
      modifies this
      ensures Sink() == Errored(old(Sink()), render, [Prim(DisabledMessage(name))])
      ensures Bar() == old(Bar()) && packages == old(packages) && pending == old(pending)
    {
      ConsoleError([Prim(DisabledMessage(name))]);
    }

    /** `createContext()`: the console, then each available package in turn, bound to its
        library when enabled and to a stub otherwise. */
    method CreateContext(enabled: seq<string>) returns (context: Context)
      ensures context == ContextFor(enabled)
    {
      context := map[ConsoleName := ConsoleSink];
      var i := 0;
      while i < |AvailablePackages|
        invariant 0 <= i <= |AvailablePackages|
        invariant forall n :: n in context <==> n == ConsoleName || n in AvailablePackages[..i]
        invariant context[ConsoleName] == ConsoleSink
        invariant forall n :: n in AvailablePackages[..i] ==> context[n] == Resolve(n, enabled)
      {
        var pkg := AvailablePackages[i];
        assert AvailablePackages[..i + 1] == AvailablePackages[..i] + [pkg];
        if pkg in enabled {
          context := context[pkg := Real(pkg)];
        } else {
          context := context[pkg := Stub(pkg)];
        }
        i := i + 1;
      }
      assert AvailablePackages[..i] == AvailablePackages;
    }

    /** The host running the compiled script: each call the script makes lands on the console
        or on a stub, in order; reads and calls on enabled libraries leave the sink alone. */
    method Dispatch(trace: seq<Event>, context: Context)
      modifies this
      ensures Sink() == Replay(old(Sink()), trace, context, render)
      ensures Bar() == old(Bar()) && packages == old(packages) && pending == old(pending)
    {
      ghost var start := Sink();
      var i := 0;
      while i < |trace|
        invariant 0 <= i <= |trace|
        invariant Sink() == Replay(start, trace[..i], context, render)
        invariant Bar() == old(Bar()) && packages == old(packages) && pending == old(pending)
      {
        ReplaySnoc(start, trace[..i], trace[i], context, render);
        assert trace[..i + 1] == trace[..i] + [trace[i]];
        match trace[i] {
          case Log(args) => ConsoleLog(args);
          case Error(args) => ConsoleError(args);
          case ClearConsole => ConsoleClear();
          case Thrown(message) => ConsoleError([Prim(message)]);
          case Touch(n, op) =>
            if n in context && context[n].Stub? {
              match op {
                case Get(property) => var proxy := StubGet(context[n].name, property);
                case Call => StubCall(context[n].name);
              }
            }
        }
        i := i + 1;
      }
      assert trace[..|trace|] == trace;
    }

    /** The end of `executeCode`: the host's report lands on the sink. */
    method Settle(outcome: Outcome, context: Context)
      modifies this
      ensures Sink() == Harness.Settle(old(Sink()), outcome, context, render)
      ensures Bar() == old(Bar()) && packages == old(packages) && pending == old(pending)
    {
      match outcome {
        case CompileError(message) => ConsoleError([Prim(message)]);
        case Ran(trace) => Dispatch(trace, context);
      }
    }

    /** The non-blank path of `executeCode`: the sink is cleared, the context is built from
        the enabled list, and the host's report on the script lands on the sink. */
    method RunScript(code: string, enabled: seq<string>)
      modifies this
      ensures Sink() == Harness.Settle(Cleared, host(code, ContextFor(enabled)), ContextFor(enabled), render)
      ensures Bar() == old(Bar()) && packages == old(packages) && pending == old(pending)
    {
      lines := [];
      output := "";
      error := "";
      var context := CreateContext(enabled);
      Settle(host(code, context), context);
    }

    /** `executeCode(code)`: the sink is cleared; blank code shows the placeholder; otherwise
        the script is compiled against the context and its compile error or its calls land in
        the sink. Nothing but the sink changes, and the display matches the buffer unless it
        shows the placeholder. */
    method ExecuteCode(code: string, enabled: seq<string>)
      modifies this
      ensures Sink() == Run(code, enabled, host, render)
      ensures Bar() == old(Bar()) && packages == old(packages) && pending == old(pending)
      ensures Displayed(Sink())
    {
      if Trim(code) == "" {
        lines := [];
        output := EmptyMessage;
        error := "";
        RunBlank(code, enabled, host, render);
      } else {
        RunScript(code, enabled);
        RunSettles(code, enabled, host, render);
      }
      RunDisplayed(code, enabled, host, render);
    }

    /** `handleEditorChange(value)`: the active tab takes the new text and the debounce slot
        holds a run of exactly that text, replacing any run still waiting. The timer's
        callback is the `executeCode` of the current render, so the run keeps the package
        list of this moment. */
    method HandleEditorChange(value: string)
      modifies this
      ensures tabs == WithContent(old(tabs), old(activeTab), value)
      ensures pending == Some(PendingRun(value, packages))
      ensures activeTab == old(activeTab) && nextTabId == old(nextTabId)
      ensures packages == old(packages) && Sink() == old(Sink())
      ensures old(Valid()) ==> Valid()
    {
      ghost var wasValid := Valid();
      tabs := WithContent(tabs, activeTab, value);
      pending := Some(PendingRun(value, packages));
      if wasValid {
        SameIdsKeepValid(TabBar(old(tabs), activeTab, nextTabId), tabs);
      }
    }

    /** The debounce timer going off: the waiting run, if any, is executed with the package
        list it was scheduled with, and the slot empties. */
    method FirePending()
      modifies this
      ensures pending == None
      ensures old(pending).Some? ==>
        Sink() == Run(old(pending).value.code, old(pending).value.enabled, host, render)
      ensures old(pending).None? ==> Sink() == old(Sink())
      ensures Bar() == old(Bar()) && packages == old(packages)
      ensures old(Valid()) ==> Valid()
    {
      if pending.Some? {
        var run := pending.value;
        pending := None;
        ExecuteCode(run.code, run.enabled);
      }
    }

    /** `addNewTab()`: the tab bar becomes `AddTab` of the old one; the id is a new one, so the
        untitled tab's code runs. */
    method AddNewTab()
      modifies this
      ensures Bar() == AddTab(old(Bar()))
      ensures activeTab != old(activeTab) ==> Sink() == Run(GetCurrentCode(), packages, host, render)
      ensures activeTab == old(activeTab) ==> Sink() == old(Sink())
      ensures packages == old(packages) && pending == old(pending)
      ensures old(Valid()) ==> Valid() && activeTab != old(activeTab)
      ensures old(Valid()) ==> GetCurrentCode() == UntitledContent
    {
      ghost var wasValid := Valid();
      ghost var before := Bar();
      if wasValid {
        AddTabKeepsValid(before);
        AddTabCurrentCode(before);
      }
      var previous := activeTab;
      var bar := AddTab(Bar());
      tabs, activeTab, nextTabId := bar.tabs, bar.active, bar.nextId;
      if activeTab != previous {
        ExecuteCode(CurrentCode(tabs, activeTab), packages);
      }
    }

    /** `closeTab(id)`: the tab bar becomes `Close` of the old one. `fault` reports the
        TypeError raised when there is more than one tab, `id` is the active id and every tab
        carries it; it never happens on a valid state. When
        the active id changed, the new active tab's code runs. */
    method CloseTab(id: string) returns (fault: bool)
      modifies this
      ensures Bar() == Close(old(Bar()), id)
      ensures fault == CloseFaults(old(Bar()), id)
      ensures activeTab != old(activeTab) ==> Sink() == Run(GetCurrentCode(), packages, host, render)
      ensures activeTab == old(activeTab) ==> Sink() == old(Sink())
      ensures packages == old(packages) && pending == old(pending)
      ensures old(Valid()) ==> Valid() && !fault
    {
      ghost var wasValid := Valid();
      ghost var before := Bar();
      if wasValid {
        CloseKeepsValid(before, id);
      }
      var previous := activeTab;
      fault := false;
      if |tabs| > 1 {
        var newTabs := Without(tabs, id);
        tabs := newTabs;
        if activeTab == id {
          if newTabs == [] {
            fault := true;
            return;
          }
          activeTab := newTabs[0].id;
        }
      }
      if activeTab != previous {
        ExecuteCode(CurrentCode(tabs, activeTab), packages);
      }
    }

    /** Clicking a tab: it becomes active, and if that changes the active id its code runs. */
    method ActivateTab(id: string)
      modifies this
      ensures activeTab == id && tabs == old(tabs) && nextTabId == old(nextTabId)
      ensures id != old(activeTab) ==> Sink() == Run(CurrentCode(tabs, id), packages, host, render)
      ensures id == old(activeTab) ==> Sink() == old(Sink())
      ensures packages == old(packages) && pending == old(pending)
      ensures old(Valid()) && id in Ids(tabs) ==> Valid()
    {
      var changed := id != activeTab;
      activeTab := id;
      if changed {
        ExecuteCode(CurrentCode(tabs, activeTab), packages);
      }
    }

    /** `startRenaming(id)`. */
    method StartRenaming(id: string)
      modifies this
      ensures tabs == StartEditing(old(tabs), id)
      ensures activeTab == old(activeTab) && nextTabId == old(nextTabId)
      ensures packages == old(packages) && pending == old(pending) && Sink() == old(Sink())
      ensures old(Valid()) ==> Valid()
    {
      ghost var wasValid := Valid();
      tabs := StartEditing(tabs, id);
      if wasValid {
        SameIdsKeepValid(TabBar(old(tabs), activeTab, nextTabId), tabs);
      }
    }

    /** `handleRename(id, newName)`: a blank name takes the `cancelRename` path, which
        `Renamed` already describes. */
    method HandleRename(id: string, newName: string)
      modifies this
      ensures tabs == Renamed(old(tabs), id, newName)
      ensures activeTab == old(activeTab) && nextTabId == old(nextTabId)
      ensures packages == old(packages) && pending == old(pending) && Sink() == old(Sink())
      ensures old(Valid()) ==> Valid()
    {
      ghost var wasValid := Valid();
      var renamed := Renamed(tabs, id, newName);
      if wasValid {
        SameIdsKeepValid(Bar(), renamed);
      }
      tabs := renamed;
    }

    /** `cancelRename()`. */
    method CancelRename()
      modifies this
      ensures tabs == StopEditing(old(tabs))
      ensures activeTab == old(activeTab) && nextTabId == old(nextTabId)
      ensures packages == old(packages) && pending == old(pending) && Sink() == old(Sink())
      ensures old(Valid()) ==> Valid()
    {
      ghost var wasValid := Valid();
      tabs := StopEditing(tabs);
      if wasValid {
        SameIdsKeepValid(TabBar(old(tabs), activeTab, nextTabId), tabs);
      }
    }

    /** `clearCode()`: the active tab gets the welcome program back and it runs. */
    method ClearCode()
      modifies this
      ensures tabs == WithContent(old(tabs), activeTab, DefaultCode)
      ensures activeTab == old(activeTab) && nextTabId == old(nextTabId)
      ensures packages == old(packages) && pending == old(pending)
      ensures Sink() == Run(DefaultCode, packages, host, render)
      ensures old(Valid()) ==> Valid() && GetCurrentCode() == DefaultCode
    {
      ghost var wasValid := Valid();
      var reset := WithContent(tabs, activeTab, DefaultCode);
      if wasValid {
        SameIdsKeepValid(Bar(), reset);
        ContentRoundTrip(tabs, activeTab, DefaultCode);
      }
      tabs := reset;
      assert wasValid ==> Tabs.Valid(Bar()) && NoDuplicates(packages) && Displayed(Sink());
      ExecuteCode(DefaultCode, packages);
    }

    /** `runCode()`: the active tab's code runs; nothing else changes. */
    method RunCode()
      modifies this
      ensures Sink() == Run(GetCurrentCode(), packages, host, render)
      ensures Bar() == old(Bar()) && packages == old(packages) && pending == old(pending)
      ensures old(Valid()) ==> Valid()
    {
      ExecuteCode(CurrentCode(tabs, activeTab), packages);
    }

    /** `handlePackageToggle(pkg)`: the name's membership flips, and since the list is a new
        array the active tab's code reruns with the new scope. */
    method HandlePackageToggle(pkg: string)
      modifies this
      ensures packages == Toggled(old(packages), pkg)
      ensures Sink() == Run(GetCurrentCode(), packages, host, render)
      ensures Bar() == old(Bar()) && pending == old(pending)
      ensures old(Valid()) ==> Valid()
    {
      ghost var wasValid := Valid();
      var toggled := Toggled(packages, pkg);
      if wasValid {
        ToggleKeepsDistinct(packages, pkg);
      }
      packages := toggled;
      assert Bar() == old(Bar()) && Sink() == old(Sink());
      assert wasValid ==> Tabs.Valid(Bar()) && NoDuplicates(packages) && Displayed(Sink());
      ExecuteCode(CurrentCode(tabs, activeTab), packages);
    }
  }
}
