/** The client-side notification cache (`useNotificationsStore`): the loaded
    notifications and the unread counter shown in the header. Only the state
    updates of the successful branches are modelled; the server's answer and the
    clock are parameters. */
module NotificationsStores {
  import opened Common

  /** The fields of a client notification the store looks at. */
  datatype ClientNotification = ClientNotification(
    id: int,
    kind: string,
    title: string,
    message: string,
    isRead: bool,
    readAt: Option<string>)

  predicate IsUnread(n: ClientNotification) {
    !n.isRead
  }

  predicate IsRead(n: ClientNotification) {
    n.isRead
  }

  function NotificationHasId(id: int): ClientNotification -> bool {
    (n: ClientNotification) => n.id == id
  }

  function NotificationLacksId(id: int): ClientNotification -> bool {
    (n: ClientNotification) => n.id != id
  }

  /** `Math.max(0, count - 1)`. */
  function DecrementClamped(count: int): (r: int)
    ensures r >= 0
    ensures count >= 1 ==> r == count - 1
    ensures count < 1 ==> r == 0
  {
    if count - 1 > 0 then count - 1 else 0
  }

  /** The entry as `markAllAsRead` leaves it. */
  function Stamped(n: ClientNotification, now: string): ClientNotification {
    n.(isRead := true, readAt := Some(now))
  }

  class NotificationsStore {
    var notifications: seq<ClientNotification>
    var unreadCount: int

    constructor ()
      ensures notifications == [] && unreadCount == 0
    {
      notifications, unreadCount := [], 0;
    }

    /** `unreadNotifications`. */
    function UnreadNotifications(): (r: seq<ClientNotification>)
      reads this
      ensures forall n :: n in r <==> n in notifications && !n.isRead
    {
      Filter(notifications, IsUnread)
    }

    /** `readNotifications`. */
    function ReadNotifications(): (r: seq<ClientNotification>)
      reads this
      ensures forall n :: n in r <==> n in notifications && n.isRead
    {
      Filter(notifications, IsRead)
    }

    /** `markAsRead`: the entry with that id becomes the server's copy and the
        counter drops by one, but never below zero. The counter drops whether or
        not the entry was in the list or was unread before. */
    method MarkAsRead(id: int, updated: ClientNotification)
      modifies this
      ensures notifications == ReplaceFirst(old(notifications), NotificationHasId(id), updated)
      ensures unreadCount == DecrementClamped(old(unreadCount))
      ensures unreadCount >= 0
    {
      var index := FindIndex(notifications, NotificationHasId(id));
      if index != -1 {
        notifications := notifications[index := updated];
      }
      unreadCount := DecrementClamped(unreadCount);
    }

    /** `markAsUnread`: the entry is replaced and the counter grows by exactly one. */
    method MarkAsUnread(id: int, updated: ClientNotification)
      modifies this
      ensures notifications == ReplaceFirst(old(notifications), NotificationHasId(id), updated)
      ensures unreadCount == old(unreadCount) + 1
    {
      var index := FindIndex(notifications, NotificationHasId(id));
      if index != -1 {
        notifications := notifications[index := updated];
      }
      unreadCount := unreadCount + 1;
    }

    /** `markAllAsRead`: every entry is marked read with the same time stamp, the
        list keeps its length and order, and the counter is reset. */
    method MarkAllAsRead(now: string)
      modifies this
      ensures |notifications| == |old(notifications)|
      ensures forall i :: 0 <= i < |notifications| ==> notifications[i] == Stamped(old(notifications)[i], now)
      ensures unreadCount == 0
      ensures UnreadNotifications() == [] && ReadNotifications() == notifications
    {
      var i := 0;
      while i < |notifications|
        invariant 0 <= i <= |notifications| == |old(notifications)|
        invariant forall j :: 0 <= j < i ==> notifications[j] == Stamped(old(notifications)[j], now)
        invariant forall j :: i <= j < |notifications| ==> notifications[j] == old(notifications)[j]
      {
        notifications := notifications[i := Stamped(notifications[i], now)];
        i := i + 1;
      }
      unreadCount := 0;
      AllReadFilters(notifications);
    }

    /** `deleteNotification`: the counter drops (not below zero) only when the first
        entry with that id exists and is unread; then every entry with that id is
        dropped. */
    method DeleteNotification(id: int)
      modifies this
      ensures notifications == Filter(old(notifications), NotificationLacksId(id))
      ensures var i := FindIndex(old(notifications), NotificationHasId(id));
        unreadCount == if i != -1 && !old(notifications)[i].isRead then DecrementClamped(old(unreadCount))
                       else old(unreadCount)
      ensures forall n :: n in notifications ==> n.id != id
    {
      var index := FindIndex(notifications, NotificationHasId(id));
      if index != -1 && !notifications[index].isRead {
        unreadCount := DecrementClamped(unreadCount);
      }
      notifications := Filter(notifications, NotificationLacksId(id));
    }

    /** `deleteAllRead`: exactly the unread entries remain, in order; the counter is
        untouched. */
    method DeleteAllRead()
      modifies this
      ensures notifications == old(UnreadNotifications())
      ensures unreadCount == old(unreadCount)
      ensures ReadNotifications() == []
    {
      notifications := Filter(notifications, IsUnread);
      FilterIdempotent(old(notifications), IsUnread);
      NoneReadAfterFilter(notifications);
    }
  }

  /** A list where every entry is read has no unread entries and is all read. */
  lemma {:induction false} AllReadFilters(s: seq<ClientNotification>)
    requires forall i :: 0 <= i < |s| ==> s[i].isRead
    ensures Filter(s, IsUnread) == [] && Filter(s, IsRead) == s
  {
    if s != [] {
      AllReadFilters(s[1..]);
    }
  }

  /** A list of unread entries has no read entry. */
  lemma {:induction false} NoneReadAfterFilter(s: seq<ClientNotification>)
    requires forall n :: n in s ==> !n.isRead
    ensures Filter(s, IsRead) == []
  {
    if s != [] {
      assert s[0] in s;
      assert forall n :: n in s[1..] ==> n in s;
      NoneReadAfterFilter(s[1..]);
    }
  }

  /** `unreadNotifications` and `readNotifications` split the list: each entry is
      in exactly one of them, as often as it is in the list. */
  lemma UnreadReadPartition(s: NotificationsStore)
    ensures multiset(s.UnreadNotifications()) + multiset(s.ReadNotifications()) == multiset(s.notifications)
    ensures |s.UnreadNotifications()| + |s.ReadNotifications()| == |s.notifications|
  {
    FilterPartition(s.notifications, IsUnread, IsRead);
  }

  /** When the server answers `markAsRead` for an entry that was already read,
      the list does not change but the counter still drops, so a counter that
      matched the unread entries before falls one below them. */
  lemma MarkAsReadOfReadEntryUndercounts(s: seq<ClientNotification>, id: int)
    requires FindIndex(s, NotificationHasId(id)) != -1
    requires s[FindIndex(s, NotificationHasId(id))].isRead
    requires |Filter(s, IsUnread)| >= 1
    ensures var after := ReplaceFirst(s, NotificationHasId(id), s[FindIndex(s, NotificationHasId(id))]);
      && Filter(after, IsUnread) == Filter(s, IsUnread)
      && DecrementClamped(|Filter(s, IsUnread)|) == |Filter(after, IsUnread)| - 1
  {
    var after := ReplaceFirst(s, NotificationHasId(id), s[FindIndex(s, NotificationHasId(id))]);
    assert after == s;
  }
}
