/** Log rendering of `showLogs` (with its inner `levelToClass`) and of
    `logAsync`. Output that the source writes with `console.log` is returned
    as a sequence of lines; the interactive-terminal flag `isConsole` is a
    parameter. */
module Logs {
  import opened Base

  /** The `meta` object of a log message. `roundedDuration` is
      `Math.round(contextDuration)`, taken as an input. */
  datatype Meta = Meta(contextId: Option<string>, roundedDuration: int)

  /** `td.LogMessage`. `elapsed` is a number; `None` stands for an absent one. */
  datatype LogMessage = LogMessage(
    msg: string,
    category: Option<string>,
    elapsed: Option<int>,
    level: int,
    meta: Option<Meta>)

  /** The cut points `td.App.ERROR`, `WARNING`, `INFO` and `DEBUG`. */
  datatype Thresholds = Thresholds(error: int, warning: int, info: int, debug: int)

  /** The severity scale lists its cut points from most to least severe. */
  predicate Ordered(t: Thresholds) {
    t.error <= t.warning <= t.info <= t.debug
  }

  datatype Severity = Error | Warning | Info | Debug | Noisy {
    /** The class name `levelToClass` returns. */
    function Name(): string {
      match this
      case Error => "error"
      case Warning => "warning"
      case Info => "info"
      case Debug => "debug"
      case Noisy => "noisy"
    }

    /** 0 for the most severe bucket, 4 for the least. */
    function Rank(): nat {
      match this
      case Error => 0
      case Warning => 1
      case Info => 2
      case Debug => 3
      case Noisy => 4
    }
  }

  /** `levelToClass`: the first cut point the level does not exceed names its
      bucket, whatever the order of the cut points. */
  function LevelToClass(t: Thresholds, level: int): (c: Severity)
    ensures c == Error <==> level <= t.error
    ensures c == Warning <==> t.error < level <= t.warning
    ensures c == Info <==> t.error < level && t.warning < level <= t.info
    ensures c == Debug <==> t.error < level && t.warning < level && t.info < level <= t.debug
    ensures c == Noisy <==> t.error < level && t.warning < level && t.info < level && t.debug < level
  {
    if level <= t.error then Error
    else if level <= t.warning then Warning
    else if level <= t.info then Info
    else if level <= t.debug then Debug
    else Noisy
  }

  /** The strings `levelToClass` returns, each exactly for its range of
      levels. */
  lemma LevelToClassNames(t: Thresholds, level: int)
    ensures LevelToClass(t, level).Name() == "error" <==> level <= t.error
    ensures LevelToClass(t, level).Name() == "warning" <==> t.error < level <= t.warning
    ensures LevelToClass(t, level).Name() == "info" <==> t.error < level && t.warning < level <= t.info
    ensures LevelToClass(t, level).Name() == "debug"
      <==> t.error < level && t.warning < level && t.info < level <= t.debug
    ensures LevelToClass(t, level).Name() == "noisy"
      <==> t.error < level && t.warning < level && t.info < level && t.debug < level
  {
  }

  /** With ordered cut points a lower level is never put in a less severe
      bucket. */
  lemma LevelToClassMonotone(t: Thresholds, lo: int, hi: int)
    requires Ordered(t) && lo <= hi
    ensures LevelToClass(t, lo).Rank() <= LevelToClass(t, hi).Rank()
  {
  }

  /** A level equal to a cut point goes to the stricter bucket that cut point
      closes, when the cut points are strictly ordered. */
  lemma BoundariesGoStricter(t: Thresholds)
    requires t.error < t.warning < t.info < t.debug
    ensures LevelToClass(t, t.error) == Error
    ensures LevelToClass(t, t.warning) == Warning
    ensures LevelToClass(t, t.info) == Info
    ensures LevelToClass(t, t.debug) == Debug
    ensures LevelToClass(t, t.debug + 1) == Noisy
  {
  }

  /** `elapsed + "> "` when `elapsed` is truthy (present and non-zero). */
  function ElapsedPart(m: LogMessage): string {
    if m.elapsed.Some? && m.elapsed.value != 0 then IntToString(m.elapsed.value) + "> " else ""
  }

  /** `category + ": "` when the category is truthy and is not `skipcat`. */
  function CategoryPart(m: LogMessage, skipcat: string): string {
    if Truthy(m.category) && m.category.value != skipcat then m.category.value + ": " else ""
  }

  /** `" [" + contextId + ": " + round(duration) + "ms]"` when `meta` carries a
      truthy `contextId`. */
  function ContextPart(m: LogMessage): string {
    if m.meta.Some? && Truthy(m.meta.value.contextId) then
      " [" + m.meta.value.contextId.value + ": " + IntToString(m.meta.value.roundedDuration) + "ms]"
    else ""
  }

  /** The text `showLogs` prints for one message: the elapsed prefix, the
      category prefix, the message text unchanged, then the context suffix
      (appended to `msg` first, before the prefixes are put in front). */
  function RenderLine(m: LogMessage, skipcat: string): (line: string)
    ensures var e, c := |ElapsedPart(m)|, |CategoryPart(m, skipcat)|;
      e + c + |m.msg| <= |line|
      && line[..e] == ElapsedPart(m)
      && line[e..e + c] == CategoryPart(m, skipcat)
      && line[e + c..e + c + |m.msg|] == m.msg
      && line[e + c + |m.msg|..] == ContextPart(m)
  {
    var e, c, x := ElapsedPart(m), CategoryPart(m, skipcat), ContextPart(m);
    SliceFour(e, c, m.msg, x);
    e + c + (m.msg + x)
  }

  /** Each part of a four-part concatenation sits at its offset. */
  lemma SliceFour(a: string, b: string, c: string, d: string)
    ensures var s := a + b + (c + d);
      |s| == |a| + |b| + |c| + |d|
      && s[..|a|] == a && s[|a|..|a| + |b|] == b
      && s[|a| + |b|..|a| + |b| + |c|] == c && s[|a| + |b| + |c|..] == d
  {
    var s := a + b + (c + d);
    assert s[..|a|] == a;
    assert s[|a|..|a| + |b|] == b;
    assert s[|a| + |b|..] == c + d;
    assert s[|a| + |b|..|a| + |b| + |c|] == (c + d)[..|c|] == c;
  }

  /** A category equal to `skipcat` is rendered as if it were absent. */
  lemma SkippedCategoryElided(m: LogMessage, skipcat: string)
    ensures RenderLine(m.(category := Some(skipcat)), skipcat) == RenderLine(m.(category := None), skipcat)
  {
  }

  /** A message with no elapsed time, no category and no context is printed
      as its bare text. */
  lemma PlainMessage(msg: string, level: int, skipcat: string)
    ensures RenderLine(LogMessage(msg, None, None, level, None), skipcat) == msg
  {
  }

  const ConsoleLimit := 30
  const MoreMarker := "... use less to see more ..."

  /** `msgs.filter(msg => !!msg)`: exactly the entries that are not null,
      so never more messages than there were entries. */
  function Present(msgs: seq<Option<LogMessage>>): (kept: seq<LogMessage>)
    ensures |kept| <= |msgs|
    ensures forall m :: m in kept <==> Some(m) in msgs
  {
    if msgs == [] then []
    else
      var head := if msgs[0].Some? then [msgs[0].value] else [];
      var rest := Present(msgs[1..]);
      assert msgs == [msgs[0]] + msgs[1..];
      assert forall m :: m in head + rest <==> m in head || m in rest;
      assert forall m :: Some(m) in msgs <==> msgs[0] == Some(m) || Some(m) in msgs[1..];
      head + rest
  }

  /** Filtering keeps the order: it distributes over concatenation. */
  lemma {:induction false} PresentAppend(a: seq<Option<LogMessage>>, b: seq<Option<LogMessage>>)
    ensures Present(a + b) == Present(a) + Present(b)
  {
    if a != [] {
      assert (a + b)[1..] == a[1..] + b;
      PresentAppend(a[1..], b);
    } else {
      assert a + b == b;
    }
  }

  /** How `showLogs` renders each message for a given `skipcat`. */
  function Renderer(skipcat: string): LogMessage -> string {
    m => RenderLine(m, skipcat)
  }

  /** One line per message, produced by `render`, in order. */
  function Lines(ms: seq<LogMessage>, render: LogMessage -> string): (lines: seq<string>)
    ensures |lines| == |ms|
  {
    if ms == [] then [] else Lines(ms[..|ms| - 1], render) + [render(ms[|ms| - 1])]
  }

  lemma {:induction false} LinesAt(ms: seq<LogMessage>, render: LogMessage -> string, i: nat)
    requires i < |ms|
    ensures Lines(ms, render)[i] == render(ms[i])
  {
    var n := |ms| - 1;
    if i < n {
      LinesAt(ms[..n], render, i);
    }
  }

  /** Rendering a prefix gives the prefix of the rendering. */
  lemma {:induction false} LinesPrefix(ms: seq<LogMessage>, render: LogMessage -> string, k: nat)
    requires k <= |ms|
    ensures Lines(ms[..k], render) == Lines(ms, render)[..k]
  {
    if k < |ms| {
      var n := |ms| - 1;
      assert ms[..n][..k] == ms[..k];
      LinesPrefix(ms[..n], render, k);
    } else {
      assert ms[..k] == ms;
    }
  }

  /** The lines printed for the already filtered messages: all of them, but
      on a console only the first 30 and then the suppression marker. */
  function Truncated(kept: seq<LogMessage>, render: LogMessage -> string, isConsole: bool): seq<string> {
    if isConsole && |kept| > ConsoleLimit then
      Lines(kept[..ConsoleLimit], render) + [MoreMarker]
    else
      Lines(kept, render)
  }

  /** What `showLogs(msgs, skipcat)` prints. */
  function ShownLogs(msgs: seq<Option<LogMessage>>, skipcat: string, isConsole: bool): seq<string> {
    Truncated(Present(msgs), Renderer(skipcat), isConsole)
  }

  /** `showLogs`: the non-null messages are kept, then printed by
      `PrintKept` with the line rendering of `skipcat`. */
  method ShowLogs(msgs: seq<Option<LogMessage>>, skipcat: string, isConsole: bool)
    returns (out: seq<string>)
    ensures out == ShownLogs(msgs, skipcat, isConsole)
  {
    var kept := Present(msgs);
    out := PrintKept(kept, Renderer(skipcat), isConsole);
  }

  /** The `forEach` over the filtered messages, whose index drives
      truncation on a console; `render` is the callback's text for one
      message. */
  method PrintKept(kept: seq<LogMessage>, render: LogMessage -> string, isConsole: bool)
    returns (out: seq<string>)
    ensures out == Truncated(kept, render, isConsole)
  {
    ghost var all := Lines(kept, render);
    out := [];
    var index := 0;
    while index < |kept|
      invariant 0 <= index <= |kept|
      invariant !(isConsole && index > ConsoleLimit) ==> out == all[..index]
      invariant isConsole && index > ConsoleLimit ==> out == all[..ConsoleLimit] + [MoreMarker]
    {
      if isConsole && index >= ConsoleLimit {
        if index == ConsoleLimit {
          out := out + [MoreMarker];
        }
      } else {
        LinesAt(kept, render, index);
        assert all[..index + 1] == all[..index] + [all[index]];
        out := out + [render(kept[index])];
      }
      index := index + 1;
    }
    assert all[..index] == all;
    if isConsole && |kept| > ConsoleLimit {
      LinesPrefix(kept, render, ConsoleLimit);
    }
  }

  /** Line count and content of `showLogs`: one line per non-null message when
      not on a console; on a console at most 30 message lines, followed by the
      marker exactly when more than 30 messages remain. */
  lemma ShownLogsShape(msgs: seq<Option<LogMessage>>, skipcat: string, isConsole: bool)
    ensures var n := |Present(msgs)|;
      var out := ShownLogs(msgs, skipcat, isConsole);
      var shown := if isConsole && n > ConsoleLimit then ConsoleLimit else n;
      |out| == shown + (if isConsole && n > ConsoleLimit then 1 else 0)
      && (forall i :: 0 <= i < shown ==> out[i] == RenderLine(Present(msgs)[i], skipcat))
      && (isConsole && n > ConsoleLimit ==> out[shown] == MoreMarker)
  {
    TruncatedShape(Present(msgs), Renderer(skipcat), isConsole);
  }

  /** `ShownLogsShape` for any rendering of the kept messages. */
  lemma TruncatedShape(kept: seq<LogMessage>, render: LogMessage -> string, isConsole: bool)
    ensures var n := |kept|;
      var out := Truncated(kept, render, isConsole);
      var shown := if isConsole && n > ConsoleLimit then ConsoleLimit else n;
      |out| == shown + (if isConsole && n > ConsoleLimit then 1 else 0)
      && (forall i :: 0 <= i < shown ==> out[i] == render(kept[i]))
      && (isConsole && n > ConsoleLimit ==> out[shown] == MoreMarker)
  {
    var shown := if isConsole && |kept| > ConsoleLimit then ConsoleLimit else |kept|;
    forall i | 0 <= i < shown
      ensures Truncated(kept, render, isConsole)[i] == render(kept[i])
    {
      LinesAt(kept[..shown], render, i);
      assert kept[..shown][i] == kept[i];
      if shown == |kept| {
        assert kept[..shown] == kept;
      }
    }
  }

  /** One worker's entry in the `/info/applog` response: `applog` is
      `w.body.applog`, `None` when it is falsy (an array, even an empty one,
      is truthy). */
  datatype WorkerLog = WorkerLog(worker: string, applog: Option<seq<Option<LogMessage>>>)

  /** `console.log("---------", w.worker)` joins its arguments with a space. */
  function WorkerHeader(w: WorkerLog): string {
    "--------- " + w.worker
  }

  /** The header, then the worker's log if it has one. */
  function WorkerBlock(w: WorkerLog, isConsole: bool): seq<string> {
    [WorkerHeader(w)] + (if w.applog.Some? then ShownLogs(w.applog.value, "", isConsole) else [])
  }

  /** What `logAsync` prints for the list of workers. */
  function WorkersView(ws: seq<WorkerLog>, isConsole: bool): seq<string> {
    if ws == [] then [] else WorkersView(ws[..|ws| - 1], isConsole) + WorkerBlock(ws[|ws| - 1], isConsole)
  }

  /** `logAsync`: a header per worker followed by that worker's lines. */
  method LogWorkers(ws: seq<WorkerLog>, isConsole: bool) returns (out: seq<string>)
    ensures out == WorkersView(ws, isConsole)
  {
    out := [];
    var i := 0;
    while i < |ws|
      invariant 0 <= i <= |ws|
      invariant out == WorkersView(ws[..i], isConsole)
    {
      var block := LogWorker(ws[i], isConsole);
      WorkersViewStep(ws, i, isConsole);
      out := out + block;
      i := i + 1;
    }
    assert ws[..i] == ws;
  }

  /** The body of the loop in `logAsync`: the header, then the worker's log
      if it has one. */
  method LogWorker(w: WorkerLog, isConsole: bool) returns (block: seq<string>)
    ensures block == WorkerBlock(w, isConsole)
  {
    block := [WorkerHeader(w)];
    if w.applog.Some? {
      var lines := ShowLogs(w.applog.value, "", isConsole);
      block := block + lines;
    }
  }

  lemma WorkersViewStep(ws: seq<WorkerLog>, i: nat, isConsole: bool)
    requires i < |ws|
    ensures WorkersView(ws[..i + 1], isConsole) == WorkersView(ws[..i], isConsole) + WorkerBlock(ws[i], isConsole)
  {
    assert ws[..i + 1][..i] == ws[..i];
  }

  /** Workers are rendered block by block, with no interleaving: the view of
      two lists of workers is the view of the first followed by the second. */
  lemma {:induction false} WorkersViewAppend(a: seq<WorkerLog>, b: seq<WorkerLog>, isConsole: bool)
    ensures WorkersView(a + b, isConsole) == WorkersView(a, isConsole) + WorkersView(b, isConsole)
  {
    if b == [] {
      assert a + b == a;
    } else {
      var init := b[..|b| - 1];
      var last := WorkerBlock(b[|b| - 1], isConsole);
      assert (a + b)[..|a + b| - 1] == a + init;
      assert (a + b)[|a + b| - 1] == b[|b| - 1];
      calc {
        WorkersView(a + b, isConsole);
        WorkersView(a + init, isConsole) + last;
        { WorkersViewAppend(a, init, isConsole); }
        (WorkersView(a, isConsole) + WorkersView(init, isConsole)) + last;
        { AppendAssoc(WorkersView(a, isConsole), WorkersView(init, isConsole), last); }
        WorkersView(a, isConsole) + (WorkersView(init, isConsole) + last);
        WorkersView(a, isConsole) + WorkersView(b, isConsole);
      }
    }
  }

  /** Each worker contributes its header line and at least as many lines as
      its block, so the view has at least one line per worker. */
  lemma {:induction false} WorkersViewLength(ws: seq<WorkerLog>, isConsole: bool)
    ensures |WorkersView(ws, isConsole)| >= |ws|
  {
    if ws != [] {
      WorkersViewLength(ws[..|ws| - 1], isConsole);
    }
  }

  /** Regrouping a concatenation; stated on its own so that the proof of
      `WorkersViewAppend` does not look inside the rendered lines. */
  lemma AppendAssoc<T>(x: seq<T>, y: seq<T>, z: seq<T>)
    ensures (x + y) + z == x + (y + z)
  {
  }
}
