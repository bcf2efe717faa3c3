/**
 * The three blocking tests: substring containment for radio and text
 * messages, exact membership for event names.
 */
module Classifier {
  import opened Wrappers
  import opened Strings
  import Blocklist

  /** A snapshot of the three blocklists and the debug flag. */
  datatype Filter = Filter(radio: set<string>, text: set<string>, events: set<string>, debugMode: bool)

  /**
   * `IsBlockedRadioMessage` / `IsBlockedTextMessage` against `blocked`:
   * a null message is never blocked; otherwise some entry occurs in it.
   */
  predicate IsBlockedMessage(blocked: set<string>, msg: Option<string>): (r: bool)
    ensures msg.None? || blocked == {} ==> !r
    ensures msg.Some? && msg.value in blocked ==> r
    ensures msg.Some? && (exists e | e in blocked :: StartsWith(msg.value, e)) ==> r
  {
    msg.Some? && exists e | e in blocked :: Contains(msg.value, e)
  }

  /**
   * `IsBlockedEvent` against `events`: a null name never, otherwise exact
   * membership. Every blocked event name would also be blocked as message text.
   */
  predicate IsBlockedEvent(events: set<string>, name: Option<string>): (r: bool)
    ensures name.None? || events == {} ==> !r
    ensures r ==> IsBlockedMessage(events, name)
  {
    name.Some? && name.value in events
  }

  /**
   * The loop over one blocklist: each entry is tried in turn, in no fixed
   * order, and the first one found in the message ends the search.
   */
  method FindBlockedEntry(blocked: set<string>, msg: string) returns (found: bool)
    ensures found <==> exists e | e in blocked :: Contains(msg, e)
  {
    var unvisited := blocked;
    while unvisited != {}
      invariant unvisited <= blocked
      invariant forall e :: e in blocked && e !in unvisited ==> !Contains(msg, e)
      decreases unvisited
    {
      var entry :| entry in unvisited;
      if Contains(msg, entry) {
        return true;
      }
      unvisited := unvisited - {entry};
    }
    return false;
  }

  /**
   * The asymmetry between the two tests: a name that merely extends an event
   * entry is not a blocked event, though as message text it would be blocked.
   */
  lemma SubstringIsNotEventMatch(events: set<string>, entry: string, suffix: string)
    requires entry in events && entry + suffix !in events
    ensures IsBlockedMessage(events, Some(entry + suffix))
    ensures !IsBlockedEvent(events, Some(entry + suffix))
  {
    assert OccursAt(entry + suffix, entry, 0);
  }

  /** Without empty entries, which no loaded list has, the empty message is never blocked. */
  lemma EmptyMessageNotBlocked(blocked: set<string>)
    requires forall e :: e in blocked ==> e != []
    ensures !IsBlockedMessage(blocked, Some(""))
  {
  }

  /** Entries from a loaded list block a message text exactly when one of them occurs in it. */
  lemma LoadedListBlocks(file: Blocklist.FileRead, msg: string)
    ensures IsBlockedMessage(Blocklist.ParseList(file), Some(msg)) ==> msg != []
    ensures !file.Read? ==> !IsBlockedMessage(Blocklist.ParseList(file), Some(msg))
  {
    forall e | e in Blocklist.ParseList(file)
      ensures e != []
    {
      Blocklist.ParseListWellFormed(file, e);
    }
    EmptyMessageNotBlocked(Blocklist.ParseList(file));
  }
}
