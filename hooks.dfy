/**
 * The decisions of the two hook callbacks, `PostEventAbstract_Hook` (network
 * messages) and `FireEvent_Hook` (game events), over a snapshot of the store.
 * What the host hands the hooks is reduced to the strings they read: a null
 * pointer is `None`.
 */
module Hooks {
  import opened Wrappers
  import opened Strings
  import opened Classifier
  import Blocklist

  /** What a hook reports to the hooking framework. */
  datatype MetaResult = Ignored | Supersede

  /** A line a hook logs in debug mode. */
  datatype DebugLine =
    | MessageLine(name: string, payload: string) // "[DEBUG][name] payload"
    | EventLine(eventName: Option<string>)       // "[DEBUG][Event] name"

  /** `INetworkMessageInternal*`: what `GetUnscopedName()` returns. */
  datatype NetMessageInfo = NetMessageInfo(unscopedName: Option<string>)

  /** `const CNetMessage*`: `AsMessage()->DebugString()`, or `None` when `AsMessage()` is null. */
  datatype NetMessageData = NetMessageData(payload: Option<string>)

  /** `IGameEvent*`: what `GetName()` returns. */
  datatype GameEvent = GameEvent(name: Option<string>)

  datatype PostOutcome = PostOutcome(result: MetaResult, log: seq<DebugLine>)

  /** The meta result, the value returned to the engine, and the debug lines. */
  datatype FireOutcome = FireOutcome(result: MetaResult, value: bool, log: seq<DebugLine>)

  /**
   * `PostEventAbstract_Hook`: with message info and data present, a named
   * message whose payload renders, a "RadioText" message is dropped when the
   * payload is radio-blocked and a "TextMsg" message when it is text-blocked;
   * everything else goes through. Debug mode only adds a log line.
   */
  function PostEventAbstractHook(f: Filter, event: Option<NetMessageInfo>, data: Option<NetMessageData>): (o: PostOutcome)
    ensures o.result == Supersede <==>
      event.Some? && data.Some? && event.value.unscopedName.Some? && data.value.payload.Some? &&
      ((Contains(event.value.unscopedName.value, "RadioText") && IsBlockedMessage(f.radio, data.value.payload)) ||
       (Contains(event.value.unscopedName.value, "TextMsg") && IsBlockedMessage(f.text, data.value.payload)))
    ensures |o.log| <= 1
    ensures o.log != [] <==>
      f.debugMode && event.Some? && data.Some? && event.value.unscopedName.Some? && data.value.payload.Some?
    ensures o.log != [] ==> o.log[0] == MessageLine(event.value.unscopedName.value, data.value.payload.value)
  {
    if event.None? || data.None? then PostOutcome(Ignored, [])
    else
      var name := event.value.unscopedName;
      var message := data.value.payload;
      var log := if f.debugMode && name.Some? && message.Some? then [MessageLine(name.value, message.value)] else [];
      if name.Some? && Contains(name.value, "RadioText") && message.Some? && IsBlockedMessage(f.radio, message) then
        PostOutcome(Supersede, log)
      else if name.Some? && Contains(name.value, "TextMsg") && message.Some? && IsBlockedMessage(f.text, message) then
        PostOutcome(Supersede, log)
      else
        PostOutcome(Ignored, log)
  }

  /**
   * `FireEvent_Hook`: a present event whose name is a blocked event is
   * superseded with value false; anything else is ignored with value true.
   */
  function FireEventHook(f: Filter, event: Option<GameEvent>): (o: FireOutcome)
    ensures o.result == Supersede <==> event.Some? && event.value.name.Some? && event.value.name.value in f.events
    ensures o.value <==> o.result == Ignored
    ensures o.log == if f.debugMode && event.Some? then [EventLine(event.value.name)] else []
  {
    if event.None? then FireOutcome(Ignored, true, [])
    else
      var log := if f.debugMode then [EventLine(event.value.name)] else [];
      if IsBlockedEvent(f.events, event.value.name) then FireOutcome(Supersede, false, log)
      else FireOutcome(Ignored, true, log)
  }

  /** The debug flag changes what is logged, never whether anything is dropped. */
  lemma DebugModeDoesNotDecide(f: Filter, event: Option<NetMessageInfo>, data: Option<NetMessageData>, game: Option<GameEvent>)
    ensures PostEventAbstractHook(f, event, data).result == PostEventAbstractHook(f.(debugMode := !f.debugMode), event, data).result
    ensures FireEventHook(f, game).result == FireEventHook(f.(debugMode := !f.debugMode), game).result
    ensures FireEventHook(f, game).value == FireEventHook(f.(debugMode := !f.debugMode), game).value
  {
  }

  /** A text-message whose payload contains a loaded text entry is dropped. */
  lemma LoadedTextEntryDrops(f: Filter, content: string, line: string, name: string, payload: string)
    requires f.text == Blocklist.ParseList(Blocklist.Read(content))
    requires line in Lines(content) && Blocklist.ParseLine(line).Some?
    requires Contains(name, "TextMsg") && Contains(payload, Blocklist.ParseLine(line).value)
    ensures PostEventAbstractHook(f, Some(NetMessageInfo(Some(name))), Some(NetMessageData(Some(payload)))).result == Supersede
  {
    Blocklist.InParseList(content, Blocklist.ParseLine(line).value);
  }

  /** A radio message whose payload contains a loaded radio entry is dropped. */
  lemma LoadedRadioEntryDrops(f: Filter, content: string, line: string, name: string, payload: string)
    requires f.radio == Blocklist.ParseList(Blocklist.Read(content))
    requires line in Lines(content) && Blocklist.ParseLine(line).Some?
    requires Contains(name, "RadioText") && Contains(payload, Blocklist.ParseLine(line).value)
    ensures PostEventAbstractHook(f, Some(NetMessageInfo(Some(name))), Some(NetMessageData(Some(payload)))).result == Supersede
  {
    Blocklist.InParseList(content, Blocklist.ParseLine(line).value);
  }

  /**
   * With the event list loaded from `content`, an event is dropped exactly
   * when some line of the file parses to its name.
   */
  lemma LoadedEventDrops(f: Filter, content: string, name: string)
    requires f.events == Blocklist.ParseList(Blocklist.Read(content))
    ensures FireEventHook(f, Some(GameEvent(Some(name)))) == (
      if exists line :: line in Lines(content) && Blocklist.ParseLine(line) == Some(name)
      then FireOutcome(Supersede, false, if f.debugMode then [EventLine(Some(name))] else [])
      else FireOutcome(Ignored, true, if f.debugMode then [EventLine(Some(name))] else []))
  {
    Blocklist.InParseList(content, name);
  }

  /** Lists whose files could not be read block nothing: the plugin fails open. */
  lemma UnreadableFilesBlockNothing(radioFile: Blocklist.FileRead, textFile: Blocklist.FileRead, eventsFile: Blocklist.FileRead,
                                    debugMode: bool, event: Option<NetMessageInfo>, data: Option<NetMessageData>, game: Option<GameEvent>)
    requires !radioFile.Read? && !textFile.Read? && !eventsFile.Read?
    ensures var f := Filter(Blocklist.ParseList(radioFile), Blocklist.ParseList(textFile), Blocklist.ParseList(eventsFile), debugMode);
      PostEventAbstractHook(f, event, data).result == Ignored &&
      FireEventHook(f, game).result == Ignored && FireEventHook(f, game).value
  {
  }
}
