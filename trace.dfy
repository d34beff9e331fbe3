/** The raw trace functions: _psGetTraceFile picks the trace sink on first use
    and keeps it; _psTrace, _psTraceStr, _psTraceInt and _psTracePtr write one
    line to that sink. The environment and the outcome of fopen are inputs;
    printf formatting is not modelled, a line records its format and argument. */
module OsdepTrace {
  import opened CoreApi

  /** The two fopen modes _psGetTraceFile uses: "w" and "a". */
  datatype Mode = Truncate | Append

  /** Where trace output goes. */
  datatype Sink = Stdout | File(path: string, mode: Mode)

  /** The two variables _psGetTraceFile consults. */
  datatype Env = Env(debugFile: Option<string>, debugFileAppend: Option<string>)

  /** A trace line: the message alone, or a format with its one argument. */
  datatype Line =
    | Raw(text: string)
    | WithStr(format: string, s: string)
    | WithInt(format: string, i: int)
    | WithPtr(format: string, p: nat)

  /** The sink chosen, and the paths whose fopen failed (each reported on stderr). */
  datatype Resolution = Resolution(sink: Sink, failed: seq<string>)

  /** Open `path` in `mode`, falling back to standard output with a warning. */
  function OpenOrStdout(path: string, mode: Mode, fopenOk: (string, Mode) -> bool): (r: Resolution)
    ensures fopenOk(path, mode) <==> r == Resolution(File(path, mode), [])
    ensures !fopenOk(path, mode) <==> r == Resolution(Stdout, [path])
  {
    if fopenOk(path, mode) then Resolution(File(path, mode), []) else Resolution(Stdout, [path])
  }

  /** The first-use branch of _psGetTraceFile: PSCORE_DEBUG_FILE opened for
      writing; else PSCORE_DEBUG_FILE_APPEND opened for appending; else
      standard output. A failed open falls back to standard output. */
  function Resolve(env: Env, fopenOk: (string, Mode) -> bool): (r: Resolution)
    ensures |r.failed| <= 1
    ensures r.sink.File? ==> fopenOk(r.sink.path, r.sink.mode)
  {
    match env.debugFile
    case Some(path) => OpenOrStdout(path, Truncate, fopenOk)
    case None =>
      match env.debugFileAppend
      case Some(path) => OpenOrStdout(path, Append, fopenOk)
      case None => Resolution(Stdout, [])
  }

  /** PSCORE_DEBUG_FILE, when set, decides alone: the append variable is not
      consulted, even when the open fails. */
  lemma DebugFileTakesPrecedence(env: Env, fopenOk: (string, Mode) -> bool)
    requires env.debugFile.Some?
    ensures var r := Resolve(env, fopenOk);
      && r == Resolve(env.(debugFileAppend := None), fopenOk)
      && (r.sink.File? ==> r.sink == File(env.debugFile.value, Truncate))
  {
  }

  /** Without PSCORE_DEBUG_FILE, PSCORE_DEBUG_FILE_APPEND is opened for appending. */
  lemma AppendFileIsFallback(env: Env, fopenOk: (string, Mode) -> bool)
    requires env.debugFile.None? && env.debugFileAppend.Some?
    ensures var path := env.debugFileAppend.value;
      Resolve(env, fopenOk).sink == if fopenOk(path, Append) then File(path, Append) else Stdout
  {
  }

  /** The sink is a file exactly when a variable is set and its open succeeds;
      a warning is printed exactly when a set variable's open fails. */
  lemma StdoutExactlyWhen(env: Env, fopenOk: (string, Mode) -> bool)
    ensures var r := Resolve(env, fopenOk);
      var chosen := if env.debugFile.Some? then env.debugFile else env.debugFileAppend;
      var mode := if env.debugFile.Some? then Truncate else Append;
      && (r.sink == Stdout <==> chosen.None? || !fopenOk(chosen.value, mode))
      && (r.failed != [] <==> chosen.Some? && !fopenOk(chosen.value, mode))
  {
  }

  /** The sink a trace call writes to, given what `tracefile` held before it. */
  function SinkAfter(cached: Option<Sink>, env: Env, fopenOk: (string, Mode) -> bool): (s: Sink)
    ensures cached.Some? ==> s == cached.value
  {
    if cached.Some? then cached.value else Resolve(env, fopenOk).sink
  }

  /** The stderr warnings a trace call adds: only the first call can add any. */
  function WarningsAfter(cached: Option<Sink>, env: Env, fopenOk: (string, Mode) -> bool): (w: seq<string>)
    ensures cached.Some? ==> w == []
  {
    if cached.Some? then [] else Resolve(env, fopenOk).failed
  }

  /** The static `tracefile`, what has been written to the sinks, and the
      paths reported on stderr. */
  class Tracer {
    var tracefile: Option<Sink>
    var written: seq<(Sink, Line)>
    var warnings: seq<string>

    /** Every line went to the one cached sink, and none before it was chosen. */
    ghost predicate Valid()
      reads this
    {
      && (tracefile.None? ==> written == [] && warnings == [])
      && forall i :: 0 <= i < |written| ==> written[i].0 == tracefile.value
    }

    /** Program start: tracefile is NULL. */
    constructor()
      ensures Valid() && tracefile == None && written == [] && warnings == []
    {
      tracefile := None;
      written := [];
      warnings := [];
    }

    /** _psGetTraceFile: resolve on the first call, return the cached sink on
        every later one, whatever the environment then says. */
    method GetTraceFile(env: Env, fopenOk: (string, Mode) -> bool) returns (sink: Sink)
      requires Valid()
      modifies this`tracefile, this`warnings
      ensures Valid()
      ensures old(tracefile).Some? ==> sink == old(tracefile).value && unchanged(this)
      ensures old(tracefile).None? ==>
                && sink == Resolve(env, fopenOk).sink
                && warnings == old(warnings) + Resolve(env, fopenOk).failed
      ensures tracefile == Some(sink)
    {
      if tracefile.None? {
        var chosen: Option<Sink> := None;
        var str: Option<string> := env.debugFile;
        if str.Some? {
          if fopenOk(str.value, Truncate) {
            chosen := Some(File(str.value, Truncate));
          } else {
            warnings := warnings + [str.value];
            chosen := Some(Stdout);
          }
        } else {
          str := env.debugFileAppend;
        }
        if chosen.None? && str.Some? {
          if fopenOk(str.value, Append) {
            chosen := Some(File(str.value, Append));
          } else {
            warnings := warnings + [str.value];
            chosen := Some(Stdout);
          }
        }
        if chosen.None? {
          chosen := Some(Stdout);
        }
        tracefile := chosen;
      }
      sink := tracefile.value;
    }

    /** Write one line to the trace sink. */
    method Emit(line: Line, env: Env, fopenOk: (string, Mode) -> bool)
      requires Valid()
      modifies this
      ensures Valid()
      ensures tracefile == Some(SinkAfter(old(tracefile), env, fopenOk))
      ensures warnings == old(warnings) + WarningsAfter(old(tracefile), env, fopenOk)
      ensures written == old(written) + [(tracefile.value, line)]
    {
      var sink := GetTraceFile(env, fopenOk);
      written := written + [(sink, line)];
    }

    /** _psTrace: the message as it is. */
    method Trace(msg: string, env: Env, fopenOk: (string, Mode) -> bool)
      requires Valid()
      modifies this
      ensures Valid()
      ensures tracefile == Some(SinkAfter(old(tracefile), env, fopenOk))
      ensures warnings == old(warnings) + WarningsAfter(old(tracefile), env, fopenOk)
      ensures written == old(written) + [(tracefile.value, Raw(msg))]
    {
      Emit(Raw(msg), env, fopenOk);
    }

    /** _psTraceStr: a NULL value prints the message as it is, otherwise the
        message is the format for the value. */
    method TraceStr(message: string, value: Option<string>, env: Env, fopenOk: (string, Mode) -> bool)
      requires Valid()
      modifies this
      ensures Valid()
      ensures tracefile == Some(SinkAfter(old(tracefile), env, fopenOk))
      ensures warnings == old(warnings) + WarningsAfter(old(tracefile), env, fopenOk)
      ensures value.None? ==> written == old(written) + [(tracefile.value, Raw(message))]
      ensures value.Some? ==> written == old(written) + [(tracefile.value, WithStr(message, value.value))]
    {
      if value.Some? {
        Emit(WithStr(message, value.value), env, fopenOk);
      } else {
        Emit(Raw(message), env, fopenOk);
      }
    }

    /** _psTraceInt: the message is the format for a 32-bit value. */
    method TraceInt(message: string, value: int, env: Env, fopenOk: (string, Mode) -> bool)
      requires Valid() && -0x8000_0000 <= value < 0x8000_0000
      modifies this
      ensures Valid()
      ensures tracefile == Some(SinkAfter(old(tracefile), env, fopenOk))
      ensures warnings == old(warnings) + WarningsAfter(old(tracefile), env, fopenOk)
      ensures written == old(written) + [(tracefile.value, WithInt(message, value))]
    {
      Emit(WithInt(message, value), env, fopenOk);
    }

    /** _psTracePtr: the message is the format for an address. */
    method TracePtr(message: string, value: nat, env: Env, fopenOk: (string, Mode) -> bool)
      requires Valid()
      modifies this
      ensures Valid()
      ensures tracefile == Some(SinkAfter(old(tracefile), env, fopenOk))
      ensures warnings == old(warnings) + WarningsAfter(old(tracefile), env, fopenOk)
      ensures written == old(written) + [(tracefile.value, WithPtr(message, value))]
    {
      Emit(WithPtr(message, value), env, fopenOk);
    }
  }

  /** Once the first trace call has chosen the sink, a change of environment
      or of what can be opened does not move later output. */
  method CachedSinkIgnoresLaterEnv(t: Tracer, first: Env, later: Env, ok1: (string, Mode) -> bool, ok2: (string, Mode) -> bool)
    requires t.Valid() && t.tracefile.None?
    modifies t
    ensures t.written == [(Resolve(first, ok1).sink, Raw("a")), (Resolve(first, ok1).sink, Raw("b"))]
    ensures t.warnings == Resolve(first, ok1).failed
  {
    t.Trace("a", first, ok1);
    t.Trace("b", later, ok2);
  }
}
