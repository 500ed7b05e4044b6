/**
 * One run of the user's script: the scope it is given (the console plus one binding per
 * available package, a stub for each disabled one), the calls it makes into that scope,
 * and the sink state a run leaves behind. Compiling and running the script is the host's
 * business; its result enters as an `Outcome`.
 */
module Harness {
  import opened Text
  import opened Packages
  import opened Console

  /** A value of the script's scope: the console sink, a package's real library, or the
      diagnostic stub that stands in for a disabled package. */
  datatype Binding = ConsoleSink | Real(name: string) | Stub(name: string)

  /** The `context` record: scope name to value. */
  type Context = map<string, Binding>

  const ConsoleName: string := "console"

  /** The value a package name is bound to: its library when enabled, a stub otherwise. */
  function Resolve(name: string, enabled: seq<string>): (b: Binding)
    ensures (b.Real? || b.Stub?) && b.name == name
    ensures b.Real? <==> name in enabled
  {
    if name in enabled then Real(name) else Stub(name)
  }

  /** The scope `createContext` builds for the enabled list `enabled`. */
  function ContextFor(enabled: seq<string>): (ctx: Context)
    ensures forall n :: n in ctx <==> n == ConsoleName || n in AvailablePackages
    ensures ctx[ConsoleName] == ConsoleSink
    ensures forall n :: n in AvailablePackages ==> ctx[n] == Resolve(n, enabled)
  {
    assert ConsoleName !in AvailablePackages;
    map n | n in [ConsoleName] + AvailablePackages ::
      if n == ConsoleName then ConsoleSink else Resolve(n, enabled)
  }

  /** What a script does to a scope value: read a property of it, or call it. */
  datatype Op = Get(property: string) | Call

  /** One call the running script makes into its scope. A `log` or `error` whose argument
      conversion throws is reported as `Thrown` instead of `Log` or `Error`; reads and calls
      that a conversion makes on a stub are reported as `Touch` events before it. */
  datatype Event =
    | Log(args: seq<Arg>)            // console.log(...args), every argument converted
    | Error(args: seq<Arg>)          // console.error(...args), every argument converted
    | ClearConsole                   // console.clear()
    | Thrown(message: string)        // the wrapper's catch: console.error(error.message), as String(error.message)
    | Touch(binding: string, op: Op) // a read or call on the value bound to `binding`, or on a stub derived from it

  /** What the host reports for the wrapped script: it failed to compile, or it ran and made
      these calls in this order. */
  datatype Outcome = CompileError(message: string) | Ran(trace: seq<Event>)

  /** The host's compile-and-run, as a function of the script and its scope. */
  type Host = (string, Context) -> Outcome

  /** A run the debounce timer will start: the script and the enabled list of the render
      that scheduled it. */
  datatype PendingRun = PendingRun(code: string, enabled: seq<string>)

  /** The text shown, instead of running anything, for a blank editor. */
  const EmptyMessage: string := "Editor is empty. Please write some code! \U{1F680}"

  /** What a disabled package's stub reports, once per read or call. */
  function DisabledMessage(name: string): string {
    "Package \"" + name + "\" is not enabled. Enable it in the Packages menu."
  }

  /** The effect of one event on the sink. */
  function Step(s: SinkState, e: Event, ctx: Context, r: Renderers): SinkState {
    match e
    case Log(args) => Logged(s, r, args)
    case Error(args) => Errored(s, r, args)
    case ClearConsole => Cleared
    case Thrown(message) => Errored(s, r, [Prim(message)])
    case Touch(n, _) =>
      if n in ctx && ctx[n].Stub? then Errored(s, r, [Prim(DisabledMessage(ctx[n].name))]) else s
  }

  /** The effect of a sequence of events, in order. */
  function Replay(s: SinkState, trace: seq<Event>, ctx: Context, r: Renderers): SinkState
    decreases |trace|
  {
    if trace == [] then s else Replay(Step(s, trace[0], ctx, r), trace[1..], ctx, r)
  }

  /** Replaying one more event is one more step. */
  lemma {:induction false} ReplaySnoc(s: SinkState, trace: seq<Event>, e: Event, ctx: Context, r: Renderers)
    ensures Replay(s, trace + [e], ctx, r) == Step(Replay(s, trace, ctx, r), e, ctx, r)
    decreases |trace|
  {
    if trace == [] {
      assert [] + [e] == [e];
      assert [e][1..] == [];
    } else {
      assert (trace + [e])[1..] == trace[1..] + [e];
      ReplaySnoc(Step(s, trace[0], ctx, r), trace[1..], e, ctx, r);
    }
  }

  /** `executeCode(code)` with the enabled list `enabled`: the sink is cleared; a blank
      script shows the placeholder and runs nothing; otherwise the script is compiled against
      the scope and either its compile error or the calls it makes land in the sink. */
  function Run(code: string, enabled: seq<string>, host: Host, r: Renderers): SinkState {
    if Trim(code) == "" then Placeholder
    else Settle(Cleared, host(code, ContextFor(enabled)), ContextFor(enabled), r)
  }

  /** The sink of a blank editor: an empty buffer under the placeholder text. */
  const Placeholder: SinkState := SinkState([], EmptyMessage, "")

  /** A non-blank script starts from the cleared sink, compiled against its context. */
  lemma RunSettles(code: string, enabled: seq<string>, host: Host, r: Renderers)
    requires Trim(code) != ""
    ensures Run(code, enabled, host, r) ==
      Settle(Cleared, host(code, ContextFor(enabled)), ContextFor(enabled), r)
  {
  }

  /** The host's report landing on the sink: a compile error is passed to `console.error`,
      a run's calls are replayed in order. */
  function Settle(s: SinkState, outcome: Outcome, ctx: Context, r: Renderers): SinkState {
    match outcome
    case CompileError(message) => Errored(s, r, [Prim(message)])
    case Ran(trace) => Replay(s, trace, ctx, r)
  }

  /** The lines one event adds: none for `clear` and for reads and calls on real values,
      exactly one otherwise. */
  function EventLines(e: Event, ctx: Context, r: Renderers): seq<string> {
    match e
    case Log(args) => [LogText(r, args)]
    case Error(args) => [ErrorPrefix + ErrorText(r, args)]
    case ClearConsole => []
    case Thrown(message) => [ErrorPrefix + message]
    case Touch(n, _) =>
      if n in ctx && ctx[n].Stub? then [ErrorPrefix + DisabledMessage(ctx[n].name)] else []
  }

  /** All the lines a trace adds, in order. */
  function Emitted(trace: seq<Event>, ctx: Context, r: Renderers): seq<string>
    decreases |trace|
  {
    if trace == [] then [] else EventLines(trace[0], ctx, r) + Emitted(trace[1..], ctx, r)
  }

  predicate ClearFree(trace: seq<Event>) {
    forall i :: 0 <= i < |trace| ==> !trace[i].ClearConsole?
  }

  lemma ClearFreeTail(trace: seq<Event>)
    requires trace != [] && ClearFree(trace)
    ensures !trace[0].ClearConsole? && ClearFree(trace[1..])
  {
    forall i | 0 <= i < |trace| - 1 ensures !trace[1..][i].ClearConsole? {
      assert trace[1..][i] == trace[i + 1];
    }
  }

  /** Every event but `clear` keeps the earlier lines and adds its own after them. */
  lemma StepLines(s: SinkState, e: Event, ctx: Context, r: Renderers)
    requires !e.ClearConsole?
    ensures Step(s, e, ctx, r).lines == s.lines + EventLines(e, ctx, r)
  {
    match e
    case Thrown(m) => SingleText(r, m);
    case Touch(n, _) => if n in ctx && ctx[n].Stub? { SingleText(r, DisabledMessage(ctx[n].name)); }
    case _ =>
  }

  /** Without a `clear`, a run only appends: the old lines stay as they were and the new ones
      follow in event order. */
  lemma {:induction false} ReplayAppends(s: SinkState, trace: seq<Event>, ctx: Context, r: Renderers)
    requires ClearFree(trace)
    ensures Replay(s, trace, ctx, r).lines == s.lines + Emitted(trace, ctx, r)
    decreases |trace|
  {
    if trace != [] {
      var t := Step(s, trace[0], ctx, r);
      StepLines(s, trace[0], ctx, r);
      ClearFreeTail(trace);
      ReplayAppends(t, trace[1..], ctx, r);
      assert Replay(s, trace, ctx, r) == Replay(t, trace[1..], ctx, r);
      assert Emitted(trace, ctx, r) == EventLines(trace[0], ctx, r) + Emitted(trace[1..], ctx, r);
      assert s.lines + EventLines(trace[0], ctx, r) + Emitted(trace[1..], ctx, r)
        == s.lines + (EventLines(trace[0], ctx, r) + Emitted(trace[1..], ctx, r));
    }
  }

  /** Every step leaves the display equal to the joined buffer, so every run that compiles
      does too. */
  lemma {:induction false} ReplayShown(s: SinkState, trace: seq<Event>, ctx: Context, r: Renderers)
    requires Shown(s)
    ensures Shown(Replay(s, trace, ctx, r))
    decreases |trace|
  {
    if trace != [] {
      ReplayShown(Step(s, trace[0], ctx, r), trace[1..], ctx, r);
    }
  }

  /** The display after a run: the joined buffer, or the placeholder over an empty buffer. */
  predicate Displayed(s: SinkState) {
    Shown(s) || (s.lines == [] && s.output == EmptyMessage)
  }

  lemma RunDisplayed(code: string, enabled: seq<string>, host: Host, r: Renderers)
    ensures Displayed(Run(code, enabled, host, r))
  {
    if Trim(code) != "" {
      var ctx := ContextFor(enabled);
      match host(code, ctx)
      case CompileError(_) =>
      case Ran(trace) => ReplayShown(Cleared, trace, ctx, r);
    }
  }

  /** A blank script (empty, or whitespace only) clears the sink and shows only the
      placeholder. */
  lemma RunBlank(code: string, enabled: seq<string>, host: Host, r: Renderers)
    requires Blank(code)
    ensures Run(code, enabled, host, r) == Placeholder
  {
  }

  /** A script that does not compile leaves exactly one line, the error label and the
      compiler's message, whatever came before. */
  lemma RunCompileError(code: string, enabled: seq<string>, host: Host, r: Renderers)
    requires !Blank(code) && host(code, ContextFor(enabled)).CompileError?
    ensures var m := host(code, ContextFor(enabled)).message;
      Run(code, enabled, host, r) == SinkState([ErrorPrefix + m], ErrorPrefix + m, m)
  {
    SingleText(r, host(code, ContextFor(enabled)).message);
  }

  /** A script that runs starts from an empty sink; without a `clear` its lines are exactly
      the lines of its events, in order. */
  lemma RunLines(code: string, enabled: seq<string>, host: Host, r: Renderers)
    requires !Blank(code) && host(code, ContextFor(enabled)).Ran?
    requires ClearFree(host(code, ContextFor(enabled)).trace)
    ensures Run(code, enabled, host, r).lines ==
      Emitted(host(code, ContextFor(enabled)).trace, ContextFor(enabled), r)
  {
    ReplayAppends(Cleared, host(code, ContextFor(enabled)).trace, ContextFor(enabled), r);
  }

  /** Each read or call on a disabled package adds exactly one line, the package's
      diagnostic; on an enabled package it adds none. Enabling the package silences it. */
  lemma TouchLines(n: string, op: Op, enabled: seq<string>, r: Renderers)
    requires n in AvailablePackages
    ensures n !in enabled ==>
      EventLines(Touch(n, op), ContextFor(enabled), r) == [ErrorPrefix + DisabledMessage(n)]
    ensures n in enabled ==> EventLines(Touch(n, op), ContextFor(enabled), r) == []
    ensures n !in enabled ==> EventLines(Touch(n, op), ContextFor(Toggled(enabled, n)), r) == []
  {
    ToggleFlips(enabled, n);
  }

  /** A stub's diagnostic goes down the error path: the line carries the error label and the
      error text becomes the diagnostic. */
  lemma TouchDisabled(s: SinkState, n: string, op: Op, enabled: seq<string>, r: Renderers)
    requires n in AvailablePackages && n !in enabled
    ensures Step(s, Touch(n, op), ContextFor(enabled), r).lines ==
      s.lines + [ErrorPrefix + DisabledMessage(n)]
    ensures Step(s, Touch(n, op), ContextFor(enabled), r).error == DisabledMessage(n)
  {
    SingleText(r, DisabledMessage(n));
  }

  /** The events other than reads and calls on scope values. */
  function ConsoleCalls(trace: seq<Event>): (r: seq<Event>)
    ensures |r| <= |trace|
    decreases |trace|
  {
    if trace == [] then []
    else if trace[0].Touch? then ConsoleCalls(trace[1..])
    else [trace[0]] + ConsoleCalls(trace[1..])
  }

  /** A touch that reports nothing: on `console`, on a name outside the scope, or on an
      enabled package. */
  predicate SilentTouch(e: Event, enabled: seq<string>) {
    e.Touch? ==> e.binding !in AvailablePackages || e.binding in enabled
  }

  /** A script that uses no disabled package gets no diagnostics: its run leaves the same
      sink as its console calls alone. */
  lemma {:induction false} EnabledTouchesSilent(s: SinkState, trace: seq<Event>, enabled: seq<string>, r: Renderers)
    requires forall i :: 0 <= i < |trace| ==> SilentTouch(trace[i], enabled)
    ensures Replay(s, trace, ContextFor(enabled), r) == Replay(s, ConsoleCalls(trace), ContextFor(enabled), r)
    decreases |trace|
  {
    if trace != [] {
      var ctx := ContextFor(enabled);
      assert forall i :: 0 <= i < |trace| - 1 ==> SilentTouch(trace[1..][i], enabled) by {
        forall i | 0 <= i < |trace| - 1 ensures SilentTouch(trace[1..][i], enabled) {
          assert trace[1..][i] == trace[i + 1];
        }
      }
      if trace[0].Touch? {
        var n := trace[0].binding;
        assert !(n in ctx && ctx[n].Stub?) by {
          if n in ctx && n != ConsoleName {
            assert n in AvailablePackages;
            assert SilentTouch(trace[0], enabled);
          }
        }
        EnabledTouchesSilent(s, trace[1..], enabled, r);
      } else {
        EnabledTouchesSilent(Step(s, trace[0], ctx, r), trace[1..], enabled, r);
      }
    }
  }
}
