/** The in-memory audit log: append, and reading pages of the log newest first. */
module AuditLog {
  import opened Words
  import opened Wrappers

  datatype Action =
    | UserRegistered | LoginSuccess | LoginFailed | MFASuccess | MFAFailed
    | AccessGranted | AccessDenied | RoleChanged
    | PolicyCreated | PolicyUpdated | PolicyDeleted
    | TokenRejected | RateLimitTriggered

  /** An absent timestamp is Go's zero time. */
  datatype Event = Event(
    id: string,
    userID: string,
    action: Action,
    resource: string,
    ipAddress: string,
    userAgent: string,
    metadata: map<string, string>,
    timestamp: Option<int>)

  /** What is stored for an event: its id and its time are filled in when the caller gave none. */
  function Stamp(e: Event, uuid: string, now: int): Event {
    var named := if e.id == "" then e.(id := uuid) else e;
    if named.timestamp.None? then named.(timestamp := Some(now)) else named
  }

  function Reverse<T>(s: seq<T>): (r: seq<T>)
    ensures |r| == |s|
    ensures forall i :: 0 <= i < |s| ==> r[i] == s[|s| - 1 - i]
  {
    seq(|s|, i requires 0 <= i < |s| => s[|s| - 1 - i])
  }

  /** A page with the total, or the runtime panic of a slice expression that is out of bounds. */
  datatype Listing = Page(events: seq<Event>, total: int) | Panic

  /** List on 64-bit integers, with their wrap-around; the offset is the exact product of the two factors. */
  function ListedFrom(log: seq<Event>, offset: int, pageSize: Int64): Listing {
    var total, start := |log|, Wrap64(offset);
    if total == 0 || start >= total then Page([], total)
    else
      var sum := Wrap64(start + pageSize);
      var end := if sum > total then total else sum;
      if 0 <= start <= end then Page(Reverse(log)[start..end], total) else Panic
  }

  function Listed(log: seq<Event>, page: Int64, pageSize: Int64): Listing {
    ListedFrom(log, Wrap64(page - 1) * pageSize, pageSize)
  }

  class MemoryLogger {
    var events: seq<Event>

    constructor ()
      ensures events == []
    {
      events := [];
    }

    method Log(event: Event, uuid: string, now: int)
      modifies this
      ensures events == old(events) + [Stamp(event, uuid, now)]
      ensures events[|old(events)|] == event.(
                id := if event.id == "" then uuid else event.id,
                timestamp := Some(if event.timestamp.None? then now else event.timestamp.value))
    {
      var stored := event;
      if stored.id == "" {
        stored := stored.(id := uuid);
      }
      if stored.timestamp.None? {
        stored := stored.(timestamp := Some(now));
      }
      events := events + [stored];
    }

    /** The copying loop of List. */
    method ReversedCopy() returns (reversed: array<Event>)
      ensures fresh(reversed) && reversed[..] == Reverse(events)
    {
      var total := |events|;
      reversed := new Event[total];
      for i := 0 to total
        invariant forall k :: total - i <= k < total ==> reversed[k] == events[total - 1 - k]
      {
        reversed[total - 1 - i] := events[i];
      }
    }

    method List(page: Int64, pageSize: Int64) returns (r: Listing)
      requires |events| <= MAX_INT64  // Go's len is an int
      ensures r == Listed(events, page, pageSize)
    {
      var total := |events|;
      if total == 0 {
        return Page([], 0);
      }

      var reversed := ReversedCopy();
      var start := Wrap64(Wrap64(page - 1) * pageSize);
      if start >= total {
        return Page([], total);
      }
      var end := Wrap64(start + pageSize);
      if end > total {
        end := total;
      }
      if !(0 <= start <= end) {
        return Panic;
      }
      r := Page(reversed[start..end], total);
    }
  }
}
