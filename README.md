# chat_cleaner filtering core, in Dafny

A model of the filtering core of the `chat_cleaner` game-server plugin: how
it turns its three blocklist files into sets of blocked strings, how it
keeps and reloads those sets, and how its two hook callbacks decide whether
to let a network message or a game event through or to supersede (drop) it.

- `wrappers.dfy` (`Wrappers`): `Option`, used for C++ pointers that may be null.
- `strings.dfy` (`Strings`): the plugin's `Trim`, and models of what it uses
  from the C++ library: `find_first_not_of` / `find_last_not_of`, one
  `std::getline` on an `istringstream` (`GetLine`) and the lines a
  `while (std::getline(...))` loop reads (`Lines`), `rfind(p, 0) == 0`
  (`StartsWith`) and `strstr` (`Contains`). A `std::string` is a `string`
  with one `char` per byte.
- `blocklist.dfy` (`Blocklist`): what one line contributes (`ParseLine`):
  trim, strip one UTF-8 byte-order mark, skip blank and `#` / `//` lines.
  Also the set a whole file yields (`ParseList`) and the result of reading
  the file (`FileRead`: no file system, read failed, or the bytes read).
- `classifier.dfy` (`Classifier`): `IsBlockedMessage` (substring) and
  `IsBlockedEvent` (exact), the scanning loop over a set, and `Filter`, a
  snapshot of the store.
- `store.dfy` (`Store`): `BlockSet`, one process-wide `unordered_set` updated
  in place. `LoadList` clears the set it is given and inserts line by line.
  `ChatCleaner` holds the three sets and `g_bDebugMode`, with
  `LoadConfig`, the three `LoadBlocked*` methods, `ReloadAllConfigs` and
  the three `IsBlocked*` tests.
- `hooks.dfy` (`Hooks`): `PostEventAbstract_Hook` and `FireEvent_Hook` as
  functions from a `Filter` and the hook's inputs to the meta result, the
  returned value and the debug lines logged.
- `scenarios.dfy` (`Scenarios`): a worked example file and event names.

Where the documented behaviour and the code differ, the model follows the code:

- When the settings file cannot be loaded, `LoadConfig` returns without
  touching `g_bDebugMode`. The flag is false only at process start, not
  reset to a default on every failed reload (`Store.ChatCleaner.LoadConfig`).
- Lines end at `'\n'` only. A `'\r'` is not a line break: only at either end
  of a line does `Trim` remove it, and one inside a line stays.
- The byte-order mark is stripped after trimming and before the empty and
  comment tests, and the rest is not trimmed again. So a line made of the mark,
  spaces and `# x` is kept as `"  # x"` with its spaces
  (`Blocklist.BomIndentedCommentKept`, and `Blocklist.BomRestKept` in general),
  and a line that is only the mark is skipped as blank
  (`Blocklist.BomBlankLineSkipped`).
- An empty message is not blocked because no loaded entry is empty
  (`Classifier.EmptyMessageNotBlocked`), not because of a separate test.
- `ReloadAllConfigs` is not called anywhere in `chat_cleaner.cpp`. `Load`
  performs the same sequence inline.

## Model

| member | source | states |
|---|---|---|
| `Strings.FindFirstNotOf` | chat_cleaner.cpp:40 | the index found is the first non-whitespace byte at or after the start, every byte before it is whitespace; `None` only when all of them are |
| `Strings.FindLastNotOf` | chat_cleaner.cpp:42 | the index found is the last non-whitespace byte, every byte after it is whitespace; `None` only when all of them are |
| `Strings.Trim` | chat_cleaner.cpp:38-44 | the result is a contiguous piece of the input with only space/tab/CR/LF outside it and none at its two ends; it is `""` exactly when the input is all whitespace |
| `Strings.TrimUnique` | chat_cleaner.cpp:38-44 | any piece with those properties is the one `Trim` returns, so `Trim` is fully determined by them |
| `Strings.TrimIdempotent` | chat_cleaner.cpp:38-44 | trimming a trimmed line changes nothing |
| `Strings.FindNewline` | chat_cleaner.cpp:64 | finds the first `'\n'` at or after a position, or reports that there is none |
| `Strings.GetLine` | chat_cleaner.cpp:64 | one `getline` returns a line with no `'\n'`, consuming it and its `'\n'` or, at the end, the rest of the input |
| `Strings.GetLineOf` | chat_cleaner.cpp:64 | `getline` on a `'\n'`-free line followed by `'\n'` returns exactly that line and leaves the rest |
| `Strings.Lines` | chat_cleaner.cpp:64 | no line read by the loop contains `'\n'` |
| `Strings.UnlinesLines` | chat_cleaner.cpp:64 | the lines, each followed by `'\n'`, rebuild the content, which gains a `'\n'` only when its last line had none: nothing else is lost or added |
| `Strings.LinesUnlines` | chat_cleaner.cpp:64 | `'\n'`-free lines written one per line are read back as the same lines, including empty ones |
| `Strings.Contains` | chat_cleaner.cpp:126 | `strstr` finds a needle only when it is no longer than the haystack; it finds every prefix, the empty needle in particular |
| `Strings.MissingCharNotContained` | chat_cleaner.cpp:126 | `strstr` finds no needle that has a byte the haystack lacks |
| `Strings.StartsWith` | chat_cleaner.cpp:73 | `rfind(prefix, 0) == 0` holds exactly when the prefix is no longer than the line and matches its first bytes one by one; the line is then the prefix followed by the rest |
| `Blocklist.StripBom` | chat_cleaner.cpp:68-69 | a line beginning with 0xEF 0xBB 0xBF loses exactly those three bytes; any other line is unchanged |
| `Blocklist.ParseLine` | chat_cleaner.cpp:66-75 | a kept entry is non-empty, is no comment, and is the trimmed line verbatim or with one leading byte-order mark removed; conversely, a line that is neither empty nor a comment once trimmed and stripped of the mark is always kept, as exactly that text |
| `Blocklist.BlankLineSkipped` | chat_cleaner.cpp:66-71 | a blank or whitespace-only line contributes nothing |
| `Blocklist.CommentLineSkipped` | chat_cleaner.cpp:73-74 | a line whose trimmed text starts with `#` or `//` contributes nothing |
| `Blocklist.BomCommentSkipped` | chat_cleaner.cpp:68-74 | a comment right behind a byte-order mark is also skipped |
| `Blocklist.BomStripped` | chat_cleaner.cpp:68-75 | a trimmed line that is a byte-order mark followed by a non-empty, non-comment rest contributes that rest exactly |
| `Blocklist.TrimmedLineKept` | chat_cleaner.cpp:66-75 | any other non-empty, non-comment line contributes its trimmed text unchanged, without case folding |
| `Blocklist.IsComment` | chat_cleaner.cpp:73 | a line is a comment only when its first byte is `#` or `/`; it is one when it starts with `#` or with `//` |
| `Blocklist.BomBlankLineSkipped` | chat_cleaner.cpp:66-71 | a line that trims to the bare byte-order mark is empty once the mark goes, and contributes nothing |
| `Blocklist.BomRestKept` | chat_cleaner.cpp:66-75 | after a byte-order mark the rest of the line is kept verbatim, however it begins (leading whitespace, a `#` behind it), as long as it is not itself a comment |
| `Blocklist.BomIndentedCommentKept` | chat_cleaner.cpp:66-75 | example: the mark followed by `  # x` is kept as the entry `"  # x"` |
| `Blocklist.SecondBomKept` | chat_cleaner.cpp:68-69 | only one byte-order mark is removed from a line: a second one stays in the entry |
| `Blocklist.EntriesExactly` | chat_cleaner.cpp:64-76 | a string is in the set built from the lines exactly when some line parses to it |
| `Blocklist.ParseList` | chat_cleaner.cpp:48-59 | the list is cleared first, so a missing file system, a failed read or an empty file leaves it empty |
| `Blocklist.InParseList` | chat_cleaner.cpp:48-76 | a string is in the loaded list exactly when some line `getline` reads from the file parses to it |
| `Blocklist.ParseListWellFormed` | chat_cleaner.cpp:70-75 | every loaded entry is non-empty and starts with neither `#` nor `//` |
| `Classifier.IsBlockedMessage` | chat_cleaner.cpp:120-142 | a null message or an empty list blocks nothing; a message equal to an entry, or starting with one, is blocked |
| `Classifier.IsBlockedEvent` | chat_cleaner.cpp:144-148 | a null name or an empty list blocks nothing; every blocked event name would also be blocked as message text against the same list |
| `Classifier.FindBlockedEntry` | chat_cleaner.cpp:124-129 | the loop over the set returns true exactly when some entry occurs in the message, whatever the visiting order |
| `Classifier.SubstringIsNotEventMatch` | chat_cleaner.cpp:120-148 | a name extending an entry is blocked as message text but is not a blocked event |
| `Classifier.EmptyMessageNotBlocked` | chat_cleaner.cpp:120-142 | with no empty entry, an empty message is never blocked |
| `Classifier.LoadedListBlocks` | chat_cleaner.cpp:48-59 | a loaded list never blocks the empty message, and a list whose file could not be read blocks nothing |
| `Store.BlockSet.constructor` | chat_cleaner.cpp:34-36 | a list starts empty |
| `Store.BlockSet.Clear` | chat_cleaner.cpp:48 | `clear()` empties the set |
| `Store.BlockSet.Insert` | chat_cleaner.cpp:75 | `insert` adds one element and keeps the others |
| `Store.LoadList` | chat_cleaner.cpp:46-78 | afterwards the target set is exactly the entries of the file: empty with no file system or a failed read, and never anything from before |
| `Store.ChatCleaner.constructor` | chat_cleaner.cpp:32-36 | at process start the three lists are empty, distinct, and debug mode is off |
| `Store.ChatCleaner.LoadConfig` | chat_cleaner.cpp:80-94 | a loaded settings file sets debug mode to `DebugMode != 0`, a missing key counting as 0; a failed load keeps the old flag |
| `Store.ChatCleaner.LoadBlockedRadio` | chat_cleaner.cpp:96-99 | the radio list becomes the entries of its file; the other two lists are unchanged |
| `Store.ChatCleaner.LoadBlockedText` | chat_cleaner.cpp:101-104 | the text list becomes the entries of its file; the other two lists are unchanged |
| `Store.ChatCleaner.LoadBlockedEvents` | chat_cleaner.cpp:106-109 | the event list becomes the entries of its file; the other two lists are unchanged |
| `Store.ChatCleaner.ReloadAllConfigs` | chat_cleaner.cpp:111-118 | each list becomes the entries of its own file, independent of its old contents, and the debug flag is set as by `LoadConfig` |
| `Store.ChatCleaner.IsBlockedRadioMessage` | chat_cleaner.cpp:120-130 | the answer is `Classifier.IsBlockedMessage` on the current radio list: false for a null message, otherwise true exactly when some radio entry occurs in it, case-sensitively |
| `Store.ChatCleaner.IsBlockedTextMessage` | chat_cleaner.cpp:132-142 | the answer is `Classifier.IsBlockedMessage` on the current text list: false for a null message, otherwise true exactly when some text entry occurs in it, case-sensitively |
| `Store.ChatCleaner.IsBlockedEvent` | chat_cleaner.cpp:144-148 | the answer is `Classifier.IsBlockedEvent` on the current event list: true exactly when the name is present and is a member of it |
| `Hooks.PostEventAbstractHook` | chat_cleaner.cpp:153-199 | supersedes exactly when the message info, data, name and payload are all present and either the name contains "RadioText" and the payload is radio-blocked or it contains "TextMsg" and the payload is text-blocked; one debug line exactly when debug mode is on and name and payload are present |
| `Hooks.FireEventHook` | chat_cleaner.cpp:201-218 | (supersede, false) exactly when the event is present and its name is an event entry, otherwise (ignored, true); one debug line for every present event in debug mode |
| `Hooks.DebugModeDoesNotDecide` | chat_cleaner.cpp:160-168 | turning debug mode on or off never changes either hook's decision or returned value |
| `Hooks.LoadedTextEntryDrops` | chat_cleaner.cpp:184-196 | a "TextMsg" message whose payload contains an entry read from the text file is superseded |
| `Hooks.LoadedRadioEntryDrops` | chat_cleaner.cpp:170-182 | a "RadioText" message whose payload contains an entry read from the radio file is superseded |
| `Hooks.LoadedEventDrops` | chat_cleaner.cpp:201-218 | an event is superseded exactly when some line of the event file parses to its name; otherwise it passes |
| `Hooks.UnreadableFilesBlockNothing` | chat_cleaner.cpp:54-59 | with all three files unreadable, both hooks let everything through |
| `Scenarios.ExampleFileLines` | chat_cleaner.cpp:64 | the example file reads as its four lines |
| `Scenarios.ExampleFileParsed` | chat_cleaner.cpp:64-76 | the file `# comment`, `noob`, `//ignored`, `idiot` loads as exactly {"noob", "idiot"} |
| `Scenarios.ExampleTextClassified` | chat_cleaner.cpp:132-142 | with that list "you are a noob" is blocked and "clean text" is not |
| `Scenarios.ExampleEvents` | chat_cleaner.cpp:144-148 | with events {"player_death"}: "player_death" is blocked, "player_death_v2" and a null name are not |

## Left out

- Plugin lifecycle and host interface plumbing (`Load`, `Unload`,
  `AllPluginsLoaded`, `StartupServer`, `GameEntitySystem`, `GET_V_IFACE_*`,
  `SH_DECL_HOOK*`, `SH_ADD_HOOK` / `SH_REMOVE_HOOK`): host ABI, no filtering
  logic. Hook registration is therefore not modelled: nothing says which hook
  is active when.
- The file system (`g_pFullFileSystem->ReadFile`, `CUtlBuffer`): replaced
  by the `FileRead` input. Paths and the "GAME" search path are not modelled.
- The `KeyValues` settings parser: replaced by the `Settings` input, which gives
  the integer under "DebugMode", if any.
- Protobuf `AsMessage()` / `DebugString()`, `GetUnscopedName()` and
  `GetName()`: foreign calls, modelled as optional strings. The hook calls
  `AsMessage()` up to three times, and the model assumes every call returns
  the same message.
- The routing arguments of `PostEventAbstract_Hook` (`nSlot`, `bLocalOnly`,
  `nClientCount`, `clients`, `nSize`, `bufType`) and `bDontBroadcast` of
  `FireEvent_Hook`: the hooks never read them.
- `ConMsg` output: only the debug lines the hooks log are modelled, as
  `DebugLine` values. Their format strings are not modelled, and neither are
  the loader's messages or the "All configs reloaded!" message.
  `FireEvent_Hook` passes a possibly null name to `%s`. The model records that
  line as `EventLine(None)` and does not model what the C library prints.
- Plugin metadata getters (`GetLicense`, `GetVersion`, `GetDate`,
  `GetLogTag`, `GetAuthor`, `GetDescription`, `GetName`, `GetURL`): constants with no logic.
- `strstr` and `c_str()` stop at an embedded NUL byte. The model matches over
  the whole string, so entries or payloads containing a NUL are matched
  differently.
- `unordered_set` iteration order: the loop in `FindBlockedEntry` visits
  entries in an arbitrary order. Its result does not depend on that order.
- Concurrency: the host calls everything on one thread, so nothing is modelled.
