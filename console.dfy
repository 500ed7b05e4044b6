/**
 * The output sink behind the `console` a script sees: an append-only buffer of lines, the
 * text shown in the output pane, and the last error message. A `log` or `error` whose
 * arguments all convert adds one line; `clear` empties everything. A conversion that throws
 * or touches a stub is reported by the host as other events (see `Harness.Event`).
 */
module Console {
  import opened Text

  /** A host value that is rendered by the host; the model never looks inside it. */
  type Json

  /** One argument of a console call: a primitive, carried as its `String(arg)` text, or a
      value with `typeof arg === "object"` (objects, arrays and null). */
  datatype Arg = Prim(text: string) | Structured(value: Json)

  /** The host's two renderings of an object: `JSON.stringify(arg, null, 2)` (used by `log`)
      and `String(arg)` (used by `error`). They are taken to be total and free of effects;
      a rendering that throws or reads a stub is not a `Log` or `Error` event. */
  datatype Renderers = Renderers(pretty: Json -> string, plain: Json -> string)

  /** The label every error line starts with, whatever the error was. */
  const ErrorPrefix: string := "ReferenceError: "

  /** `outputRef.current`, the `output` state and the `error` state. */
  datatype SinkState = SinkState(lines: seq<string>, output: string, error: string)

  /** The state `clear` leaves, and the one every run starts from. */
  const Cleared: SinkState := SinkState([], "", "")

  /** The display is the buffer joined with newlines. */
  predicate Shown(s: SinkState) {
    s.output == Join(s.lines, "\n")
  }

  function LogPiece(r: Renderers, a: Arg): string {
    match a
    case Prim(t) => t
    case Structured(v) => r.pretty(v)
  }

  function ErrorPiece(r: Renderers, a: Arg): string {
    match a
    case Prim(t) => t
    case Structured(v) => r.plain(v)
  }

  /** The arguments of `log`, each rendered on its own and joined with one space. */
  function LogText(r: Renderers, args: seq<Arg>): string {
    Join(seq(|args|, i requires 0 <= i < |args| => LogPiece(r, args[i])), " ")
  }

  /** The arguments of `error`, each converted with `String` and joined with one space. */
  function ErrorText(r: Renderers, args: seq<Arg>): string {
    Join(seq(|args|, i requires 0 <= i < |args| => ErrorPiece(r, args[i])), " ")
  }

  /** `console.log(...args)`: exactly one line is appended, the earlier lines and the error
      text stay, and the display is the new buffer joined. */
  function Logged(s: SinkState, r: Renderers, args: seq<Arg>): (t: SinkState)
    ensures t.lines == s.lines + [LogText(r, args)] && t.error == s.error
    ensures Shown(t)
  {
    var lines := s.lines + [LogText(r, args)];
    SinkState(lines, Join(lines, "\n"), s.error)
  }

  /** `console.error(...args)`: exactly one line, the error label followed by the joined
      arguments, is appended; the error text becomes the joined arguments. */
  function Errored(s: SinkState, r: Renderers, args: seq<Arg>): (t: SinkState)
    ensures t.lines == s.lines + [ErrorPrefix + ErrorText(r, args)]
    ensures t.error == ErrorText(r, args)
    ensures Shown(t)
  {
    var lines := s.lines + [ErrorPrefix + ErrorText(r, args)];
    SinkState(lines, Join(lines, "\n"), ErrorText(r, args))
  }

  /** The display only grows: after `log` it is the old display, a newline and the new line
      (or just the new line on an empty buffer). */
  lemma LoggedDisplay(s: SinkState, r: Renderers, args: seq<Arg>)
    requires Shown(s)
    ensures Logged(s, r, args).output ==
      if s.lines == [] then LogText(r, args) else s.output + "\n" + LogText(r, args)
  {
    JoinSnoc(s.lines, LogText(r, args), "\n");
  }

  /** Likewise after `error`, with the error label in front of the new line. */
  lemma ErroredDisplay(s: SinkState, r: Renderers, args: seq<Arg>)
    requires Shown(s)
    ensures Errored(s, r, args).output ==
      if s.lines == [] then ErrorPrefix + ErrorText(r, args)
      else s.output + "\n" + ErrorPrefix + ErrorText(r, args)
  {
    JoinSnoc(s.lines, ErrorPrefix + ErrorText(r, args), "\n");
  }

  /** A single string argument is passed through unchanged by either rendering. */
  lemma SingleText(r: Renderers, text: string)
    ensures LogText(r, [Prim(text)]) == text
    ensures ErrorText(r, [Prim(text)]) == text
  {
    assert seq(1, i requires 0 <= i < 1 => LogPiece(r, [Prim(text)][i])) == [text];
    assert seq(1, i requires 0 <= i < 1 => ErrorPiece(r, [Prim(text)][i])) == [text];
  }

  /** Two primitive arguments are joined by a single space (`console.log("hi", 42)` shows
      `hi 42`). */
  lemma TwoPrimitives(r: Renderers, a: string, b: string)
    ensures LogText(r, [Prim(a), Prim(b)]) == a + " " + b
  {
    var pieces := seq(2, i requires 0 <= i < 2 => LogPiece(r, [Prim(a), Prim(b)][i]));
    assert pieces == [a, b];
    assert pieces[1..] == [b];
    assert Join(pieces, " ") == a + " " + Join([b], " ");
  }
}
