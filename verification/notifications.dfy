/** The notification panel (frontend/src/Component/layout/NotificationPanel.js):
    marking one notification read in the local list, and the unread count
    the panel and the navigation bar show. */
module Notifications {
  import Seqs
  import Client

  predicate IsUnread(n: Client.Notification) {
    !n.read
  }

  /** `notifications.filter(n => !n.read).length`. */
  function UnreadCount(ns: seq<Client.Notification>): (c: nat)
    ensures c <= |ns|
    ensures c == 0 <==> forall i :: 0 <= i < |ns| ==> ns[i].read
  {
    var unread := Seqs.Filter(ns, IsUnread);
    assert unread != [] ==> unread[0] in unread;
    assert forall i :: 0 <= i < |ns| && !ns[i].read ==> ns[i] in unread;
    |unread|
  }

  /** The local update of `handleMarkAsRead`: every entry with the id is
      marked read, every other entry is kept as it was. */
  function MarkAsRead(ns: seq<Client.Notification>, id: int): (r: seq<Client.Notification>)
    ensures |r| == |ns|
    ensures forall i :: 0 <= i < |ns| && ns[i].id == id ==> r[i] == ns[i].(read := true)
    ensures forall i :: 0 <= i < |ns| && ns[i].id != id ==> r[i] == ns[i]
  {
    if ns == [] then []
    else
      var rest := MarkAsRead(ns[1..], id);
      [if ns[0].id == id then ns[0].(read := true) else ns[0]] + rest
  }

  /** `handleMarkAsRead`: the server's answer is awaited but never
      inspected (the request helper turns any failure into `null`), so the
      local list changes the same way whatever the server did. */
  function HandleMarkAsRead(ns: seq<Client.Notification>, id: int, serverAccepted: bool): (r: seq<Client.Notification>)
    ensures |r| == |ns|
    ensures forall i :: 0 <= i < |r| ==> r[i].id == ns[i].id && (r[i].read <==> ns[i].read || ns[i].id == id)
  {
    MarkAsRead(ns, id)
  }

  /** Marking the same notification twice is marking it once. */
  lemma MarkIdempotent(ns: seq<Client.Notification>, id: int)
    ensures MarkAsRead(MarkAsRead(ns, id), id) == MarkAsRead(ns, id)
  {
  }

  /** The unread entries carrying the id. */
  function UnreadWithId(ns: seq<Client.Notification>, id: int): nat {
    |Seqs.Filter(ns, (n: Client.Notification) => IsUnread(n) && n.id == id)|
  }

  /** Marking removes from the unread count exactly the unread entries with
      that id, so it never raises the count, and lowers it by one when the
      id names one unread notification. */
  lemma {:induction false} MarkLowersUnread(ns: seq<Client.Notification>, id: int)
    ensures UnreadCount(MarkAsRead(ns, id)) + UnreadWithId(ns, id) == UnreadCount(ns)
    ensures UnreadCount(MarkAsRead(ns, id)) <= UnreadCount(ns)
  {
    if ns != [] {
      MarkLowersUnread(ns[1..], id);
      var r := MarkAsRead(ns, id);
      assert r[1..] == MarkAsRead(ns[1..], id);
    }
  }

  /** After marking, no entry with that id is unread. */
  lemma MarkedIsRead(ns: seq<Client.Notification>, id: int)
    ensures UnreadWithId(MarkAsRead(ns, id), id) == 0
  {
    var f := Seqs.Filter(MarkAsRead(ns, id), (n: Client.Notification) => IsUnread(n) && n.id == id);
    assert f != [] ==> f[0] in f;
  }
}
