/**
 * The logger (CustomLogging.cs): a message passes the filter of the current log level or is
 * dropped, and a message that passes goes to the Unity console channel matching its type.
 * The caller information read from the stack frame is a parameter.
 */
module Logging {
  import opened Wrappers

  /** `None` keeps only errors, `Minimal` adds warnings, `Detailed` keeps everything. */
  datatype LogLevel = None | Minimal | Detailed

  datatype MessageType = Info | Warning | Error

  /** The Unity console calls: `Debug.Log`, `Debug.LogWarning` and `Debug.LogError`. */
  datatype Channel = DebugLog | DebugLogWarning | DebugLogError

  /** One console line: the channel it goes to and its text. */
  datatype Entry = Entry(channel: Channel, text: string)

  /** `CurrentLogLevel`'s initial value. */
  const DefaultLogLevel: LogLevel := Detailed

  /** How severe a message is: info below warning below error. */
  function Severity(t: MessageType): nat {
    match t
    case Info => 0
    case Warning => 1
    case Error => 2
  }

  /** The least severity a level lets through. */
  function Threshold(level: LogLevel): nat {
    match level
    case None => 2
    case Minimal => 1
    case Detailed => 0
  }

  /** The channel of each message type. */
  function ChannelOf(t: MessageType): (c: Channel)
    ensures c == DebugLogError <==> t == Error
    ensures c == DebugLogWarning <==> t == Warning
  {
    match t
    case Info => DebugLog
    case Warning => DebugLogWarning
    case Error => DebugLogError
  }

  /**
   * `Log(message, type)` under `CurrentLogLevel == level`: the filter's early returns, then the
   * caller information and the message joined by a space, sent to the channel of its type.
   */
  function Log(level: LogLevel, callerInfo: string, message: string, t: MessageType): (r: Option<Entry>)
    ensures r.Some? <==> Severity(t) >= Threshold(level)
    ensures r.Some? ==> r.value.channel == ChannelOf(t) && r.value.text == callerInfo + " " + message
  {
    var dropped := match level
      case None => t != Error
      case Minimal => t == Info
      case Detailed => false;
    if dropped then Option.None
    else Some(Entry(ChannelOf(t), callerInfo + " " + message))
  }

  /** `LogInfo`: shown only at `Detailed`, on `Debug.Log`. */
  function LogInfo(level: LogLevel, callerInfo: string, message: string): (r: Option<Entry>)
    ensures r.Some? <==> level == Detailed
    ensures r.Some? ==> r.value.channel == DebugLog
  {
    Log(level, callerInfo, message, Info)
  }

  /** `LogWarning`: shown at every level but `None`, on `Debug.LogWarning`. */
  function LogWarning(level: LogLevel, callerInfo: string, message: string): (r: Option<Entry>)
    ensures r.Some? <==> level != LogLevel.None
    ensures r.Some? ==> r.value.channel == DebugLogWarning
  {
    Log(level, callerInfo, message, Warning)
  }

  /** `LogError`: shown at every level, on `Debug.LogError`. */
  function LogError(level: LogLevel, callerInfo: string, message: string): (r: Option<Entry>)
    ensures r.Some? && r.value.channel == DebugLogError
  {
    Log(level, callerInfo, message, Error)
  }

  /** A more verbose level shows everything a quieter one shows. */
  lemma MoreVerboseShowsMore(quiet: LogLevel, verbose: LogLevel, callerInfo: string, message: string, t: MessageType)
    requires Threshold(verbose) <= Threshold(quiet)
    ensures Log(quiet, callerInfo, message, t).Some? ==> Log(verbose, callerInfo, message, t) == Log(quiet, callerInfo, message, t)
  {
  }
}
