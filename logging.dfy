/**
  The recording logger of src/logging/logging.go. A `RecordingLogger` keeps every
  message it is given in `Entries`, each prefixed with its level tag and a time stamp,
  and passes the call on unchanged to the logger it wraps, if any (App Engine's request
  logger, in the handlers). The clock and `fmt.Sprintf` are parameters; the wrapped
  logger is an object that records the calls it receives.
*/
module Logging {
  import opened Wrappers

  /** The five methods of the `Logger` interface. */
  datatype Level = Debug | Info | Warning | Error | Critical

  /** The tag an entry starts with; `Warningf` writes "WARN". */
  function Tag(level: Level): string {
    match level
    case Debug => "DEBUG"
    case Info => "INFO"
    case Warning => "WARN"
    case Error => "ERROR"
    case Critical => "CRITICAL"
  }

  /** The arguments of a call, as the text `fmt` would print for each. */
  type Args = seq<string>

  /** `fmt.Sprintf(format, args...)`. */
  type Formatter = (string, Args) -> string

  /** A call of one of the level methods. */
  datatype Call = Call(level: Level, format: string, args: Args)

  /** `fmt.Sprintf("%v(%v): %v", kind, ts, msg)`. */
  function EntryText(kind: string, ts: string, msg: string): string {
    kind + "(" + ts + "): " + msg
  }

  /** The level an entry was written at, read back from its tag. */
  function LevelOf(entry: string): Option<Level> {
    if HasPrefix(entry, "DEBUG(") then Some(Debug)
    else if HasPrefix(entry, "INFO(") then Some(Info)
    else if HasPrefix(entry, "WARN(") then Some(Warning)
    else if HasPrefix(entry, "ERROR(") then Some(Error)
    else if HasPrefix(entry, "CRITICAL(") then Some(Critical)
    else None
  }

  predicate HasPrefix(s: string, p: string) {
    |p| <= |s| && s[..|p|] == p
  }

  /** An entry starts with its level's tag and an opening parenthesis, and the tag tells
      the level back: no tag with its parenthesis begins another. */
  lemma EntryTagged(level: Level, ts: string, msg: string)
    ensures HasPrefix(EntryText(Tag(level), ts, msg), Tag(level) + "(")
    ensures LevelOf(EntryText(Tag(level), ts, msg)) == Some(level)
  {
    var e := EntryText(Tag(level), ts, msg);
    var t := Tag(level) + "(";
    assert e == t + (ts + "): " + msg);
    assert e[..|t|] == t;
    assert e[0] == t[0] && e[1] == t[1] && e[2] == t[2] && e[3] == t[3] && e[4] == t[4];
  }

  /** The logger a `RecordingLogger` wraps, seen through the calls it receives. */
  class WrappedLogger {
    var calls: seq<Call>

    constructor ()
      ensures calls == []
    {
      calls := [];
    }

    method Receive(call: Call)
      modifies this
      ensures calls == old(calls) + [call]
    {
      calls := calls + [call];
    }
  }

  class RecordingLogger {
    var entries: seq<string>
    var wrapped: WrappedLogger?

    /** The zero value: no entries, nothing wrapped. */
    constructor ()
      ensures entries == [] && wrapped == null
    {
      entries := [];
      wrapped := null;
    }

    /** `Wrap`: later calls are passed on to `w`; the entries stay. */
    method Wrap(w: WrappedLogger?)
      modifies this
      ensures wrapped == w && entries == old(entries)
    {
      wrapped := w;
    }

    /** `Unwrap`: later calls are only recorded; the entries stay. */
    method Unwrap()
      modifies this
      ensures wrapped == null && entries == old(entries)
    {
      wrapped := null;
    }

    /** `add`: append one entry, stamped with the time `ts`. */
    method Add(kind: string, ts: string, msg: string)
      modifies this
      ensures entries == old(entries) + [EntryText(kind, ts, msg)]
      ensures wrapped == old(wrapped)
    {
      entries := entries + [EntryText(kind, ts, msg)];
    }

    /** The body the five level methods share: record the entry, then pass the call on
        if a logger is wrapped. Exactly one entry is added, the earlier ones stay, and
        the wrapped logger, and only it, receives the same call. */
    method Record(level: Level, format: string, args: Args, ts: string, sprintf: Formatter)
      modifies this, wrapped
      ensures entries == old(entries) + [EntryText(Tag(level), ts, sprintf(format, args))]
      ensures wrapped == old(wrapped)
      ensures wrapped != null ==> wrapped.calls == old(wrapped.calls) + [Call(level, format, args)]
    {
      Add(Tag(level), ts, sprintf(format, args));
      if wrapped != null {
        wrapped.Receive(Call(level, format, args));
      }
    }

    method Debugf(format: string, args: Args, ts: string, sprintf: Formatter)
      modifies this, wrapped
      ensures entries == old(entries) + [EntryText("DEBUG", ts, sprintf(format, args))]
      ensures wrapped == old(wrapped)
      ensures wrapped != null ==> wrapped.calls == old(wrapped.calls) + [Call(Debug, format, args)]
    {
      Record(Debug, format, args, ts, sprintf);
    }

    method Infof(format: string, args: Args, ts: string, sprintf: Formatter)
      modifies this, wrapped
      ensures entries == old(entries) + [EntryText("INFO", ts, sprintf(format, args))]
      ensures wrapped == old(wrapped)
      ensures wrapped != null ==> wrapped.calls == old(wrapped.calls) + [Call(Info, format, args)]
    {
      Record(Info, format, args, ts, sprintf);
    }

    method Warningf(format: string, args: Args, ts: string, sprintf: Formatter)
      modifies this, wrapped
      ensures entries == old(entries) + [EntryText("WARN", ts, sprintf(format, args))]
      ensures wrapped == old(wrapped)
      ensures wrapped != null ==> wrapped.calls == old(wrapped.calls) + [Call(Warning, format, args)]
    {
      Record(Warning, format, args, ts, sprintf);
    }

    method Errorf(format: string, args: Args, ts: string, sprintf: Formatter)
      modifies this, wrapped
      ensures entries == old(entries) + [EntryText("ERROR", ts, sprintf(format, args))]
      ensures wrapped == old(wrapped)
      ensures wrapped != null ==> wrapped.calls == old(wrapped.calls) + [Call(Error, format, args)]
    {
      Record(Error, format, args, ts, sprintf);
    }

    method Criticalf(format: string, args: Args, ts: string, sprintf: Formatter)
      modifies this, wrapped
      ensures entries == old(entries) + [EntryText("CRITICAL", ts, sprintf(format, args))]
      ensures wrapped == old(wrapped)
      ensures wrapped != null ==> wrapped.calls == old(wrapped.calls) + [Call(Critical, format, args)]
    {
      Record(Critical, format, args, ts, sprintf);
    }

    /** `Clear`: no entries, the wrapped logger kept. */
    method Clear()
      modifies this
      ensures entries == [] && wrapped == old(wrapped)
    {
      entries := [];
    }
  }
}
