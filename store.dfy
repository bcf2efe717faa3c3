/**
 * The plugin's process-wide state: the three blocklists and the debug flag,
 * with the loaders that replace them and the message tests that read them.
 */
module Store {
  import opened Wrappers
  import opened Strings
  import opened Blocklist
  import Classifier

  /** One `std::unordered_set<std::string>` global, updated in place. */
  class BlockSet {
    var elems: set<string>

    constructor ()
      ensures elems == {}
    {
      elems := {};
    }

    /** `clear()` */
    method Clear()
      modifies this
      ensures elems == {}
    {
      elems := {};
    }

    /** `insert(s)`; inserting an element already present changes nothing. */
    method Insert(s: string)
      modifies this
      ensures elems == old(elems) + {s}
    {
      elems := elems + {s};
    }
  }

  /**
   * `LoadList(path, out, label)` once the file system has answered with `file`:
   * clear `out`, then insert the entry of every line read by `std::getline`.
   * Whatever `out` held before is gone.
   */
  method LoadList(file: FileRead, out: BlockSet)
    modifies out
    ensures out.elems == ParseList(file)
  {
    out.Clear();
    if file.NoFileSystem? || file.ReadFailed? {
      return;
    }
    var unread := file.content;
    while unread != []
      invariant ParseList(file) == out.elems + Entries(Lines(unread))
      decreases |unread|
    {
      EntriesOfFirstLine(unread);
      var next := GetLine(unread);
      var raw := next.0;
      unread := next.1;
      ghost var kept := ParseLine(raw);
      assert ParseList(file) == out.elems + ToSet(kept) + Entries(Lines(unread));
      var line := Trim(raw);
      if |line| >= 3 && line[0] == '\U{EF}' && line[1] == '\U{BB}' && line[2] == '\U{BF}' {
        line := line[3..];
      }
      assert line == StripBom(Trim(raw));
      if line == [] {
        assert kept == None;
        continue;
      }
      if StartsWith(line, "#") || StartsWith(line, "//") {
        assert kept == None;
        continue;
      }
      assert kept == Some(line);
      out.Insert(line);
    }
  }

  /** The settings file as far as the plugin reads it. */
  datatype Settings =
    | SettingsUnavailable                  // no file system, or `LoadFromFile` failed
    | SettingsLoaded(debugModeKey: Option<int>) // the integer under "DebugMode", if present

  class ChatCleaner {
    /** `g_BlockedRadioMessages`, `g_BlockedTextMessages`, `g_BlockedEvents` */
    const radio: BlockSet
    const text: BlockSet
    const events: BlockSet
    /** `g_bDebugMode` */
    var debugMode: bool

    /** The three lists are distinct objects. */
    ghost predicate Valid()
      reads this
    {
      radio != text && radio != events && text != events
    }

    /** The state at process start: empty lists, debug mode off. */
    constructor ()
      ensures Valid() && fresh(radio) && fresh(text) && fresh(events)
      ensures radio.elems == {} && text.elems == {} && events.elems == {}
      ensures !debugMode
    {
      radio := new BlockSet();
      text := new BlockSet();
      events := new BlockSet();
      debugMode := false;
    }

    /** The current contents as a value, for the hooks to classify against. */
    function Snapshot(): Classifier.Filter
      reads this, radio, text, events
    {
      Classifier.Filter(radio.elems, text.elems, events.elems, debugMode)
    }

    /**
     * `LoadConfig`: a readable settings file sets the flag to "DebugMode != 0",
     * a missing key reading as 0; an unreadable one leaves the flag as it was.
     */
    method LoadConfig(settings: Settings)
      modifies this
      ensures debugMode == match settings
        case SettingsUnavailable => old(debugMode)
        case SettingsLoaded(key) => key.GetOr(0) != 0
    {
      if settings.SettingsUnavailable? {
        return;
      }
      debugMode := settings.debugModeKey.GetOr(0) != 0;
    }

    method LoadBlockedRadio(file: FileRead)
      requires Valid()
      modifies radio
      ensures radio.elems == ParseList(file)
      ensures text.elems == old(text.elems) && events.elems == old(events.elems)
    {
      LoadList(file, radio);
    }

    method LoadBlockedText(file: FileRead)
      requires Valid()
      modifies text
      ensures text.elems == ParseList(file)
      ensures radio.elems == old(radio.elems) && events.elems == old(events.elems)
    {
      LoadList(file, text);
    }

    method LoadBlockedEvents(file: FileRead)
      requires Valid()
      modifies events
      ensures events.elems == ParseList(file)
      ensures radio.elems == old(radio.elems) && text.elems == old(text.elems)
    {
      LoadList(file, events);
    }

    /**
     * `ReloadAllConfigs`: the settings, then each list from its own file.
     * Each list afterwards depends only on its file, never on what it held.
     */
    method ReloadAllConfigs(settings: Settings, radioFile: FileRead, textFile: FileRead, eventsFile: FileRead)
      requires Valid()
      modifies this, radio, text, events
      ensures Valid()
      ensures radio.elems == ParseList(radioFile)
      ensures text.elems == ParseList(textFile)
      ensures events.elems == ParseList(eventsFile)
      ensures debugMode == match settings
        case SettingsUnavailable => old(debugMode)
        case SettingsLoaded(key) => key.GetOr(0) != 0
    {
      LoadConfig(settings);
      LoadBlockedRadio(radioFile);
      LoadBlockedText(textFile);
      LoadBlockedEvents(eventsFile);
    }

    /** `IsBlockedRadioMessage(szMsg)`; `None` is a null `szMsg`. */
    method IsBlockedRadioMessage(msg: Option<string>) returns (blocked: bool)
      ensures blocked == Classifier.IsBlockedMessage(Snapshot().radio, msg)
    {
      if msg.None? {
        return false;
      }
      blocked := Classifier.FindBlockedEntry(radio.elems, msg.value);
    }

    /** `IsBlockedTextMessage(szMsg)`; `None` is a null `szMsg`. */
    method IsBlockedTextMessage(msg: Option<string>) returns (blocked: bool)
      ensures blocked == Classifier.IsBlockedMessage(Snapshot().text, msg)
    {
      if msg.None? {
        return false;
      }
      blocked := Classifier.FindBlockedEntry(text.elems, msg.value);
    }

    /** `IsBlockedEvent(szName)`: `g_BlockedEvents.find(szName) != end()`. */
    method IsBlockedEvent(name: Option<string>) returns (blocked: bool)
      ensures blocked == Classifier.IsBlockedEvent(Snapshot().events, name)
    {
      if name.None? {
        return false;
      }
      blocked := name.value in events.elems;
    }
  }
}
