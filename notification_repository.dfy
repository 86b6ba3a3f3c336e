/** The `notifications` table, one row per notification, each owned by a user.
    `read_at` is an optional timestamp; the clock is a parameter. */
module NotificationRepositories {
  import opened Common

  /** A value of the JSON `data` column (the builders store ids and strings). */
  datatype DataValue = IntValue(i: int) | StringValue(s: string)

  datatype Notification = Notification(
    id: int,
    userId: int,
    kind: string,
    title: string,
    message: string,
    data: map<string, DataValue>,
    readAt: Option<string>)

  /** The read filters `getByUser` understands, as they arrive from the query
      string (a missing or null entry is `None`). */
  datatype NotificationFilters = NotificationFilters(
    unreadOnly: Option<string>,
    readOnly: Option<string>,
    kind: Option<string>)

  /** Whether a notification passes the read and type filters of `getByUser`:
      each applies only when its value is truthy in PHP's sense. */
  predicate MatchesFilters(n: Notification, filters: NotificationFilters) {
    && (PhpTruthyOpt(filters.unreadOnly) ==> n.readAt.None?)
    && (PhpTruthyOpt(filters.readOnly) ==> n.readAt.Some?)
    && (PhpTruthyOpt(filters.kind) ==> n.kind == filters.kind.value)
  }

  class NotificationRepository {
    var rows: map<int, Notification>
    var nextId: int

    ghost predicate Valid()
      reads this
    {
      forall id :: id in rows ==> rows[id].id == id && id < nextId
    }

    constructor ()
      ensures Valid() && rows == map[]
    {
      rows, nextId := map[], 1;
    }

    /** The ids of the user's notifications without `read_at`. */
    function UnreadOf(userId: int): (r: set<int>)
      reads this
      ensures forall id :: id in r <==> id in rows && rows[id].userId == userId && rows[id].readAt.None?
    {
      set id | id in rows && rows[id].userId == userId && rows[id].readAt.None?
    }

    /** The ids of the user's notifications with `read_at` set. */
    function ReadOf(userId: int): (r: set<int>)
      reads this
      ensures forall id :: id in r <==> id in rows && rows[id].userId == userId && rows[id].readAt.Some?
    {
      set id | id in rows && rows[id].userId == userId && rows[id].readAt.Some?
    }

    /** `getUnreadCount`. */
    function GetUnreadCount(userId: int): (r: nat)
      reads this
      ensures r == |UnreadOf(userId)|
      ensures r <= |rows|
    {
      UnreadCountBound(userId);
      |UnreadOf(userId)|
    }

    lemma UnreadCountBound(userId: int)
      ensures |UnreadOf(userId)| <= |rows|
    {
      assert UnreadOf(userId) <= rows.Keys;
      SubsetCardinality(UnreadOf(userId), rows.Keys);
    }

    /** `findByUser`: the notification, only when the user owns it. */
    function FindByUser(userId: int, notificationId: int): (r: Option<Notification>)
      reads this
      ensures r.Some? <==> notificationId in rows && rows[notificationId].userId == userId
      ensures r.Some? ==> r.value == rows[notificationId]
    {
      if notificationId in rows && rows[notificationId].userId == userId then Some(rows[notificationId]) else None
    }

    /** `getByUser` without sorting and pagination: the ids of the user's
        notifications that pass the filters. */
    function GetByUser(userId: int, filters: NotificationFilters): (r: set<int>)
      reads this
      ensures forall id :: id in r ==> id in rows && rows[id].userId == userId
      ensures PhpTruthyOpt(filters.unreadOnly) ==> r <= UnreadOf(userId)
      ensures PhpTruthyOpt(filters.readOnly) ==> r <= ReadOf(userId)
      ensures PhpTruthyOpt(filters.kind) ==> forall id :: id in r ==> rows[id].kind == filters.kind.value
      ensures forall id :: id in rows && rows[id].userId == userId && MatchesFilters(rows[id], filters) ==> id in r
    {
      set id | id in rows && rows[id].userId == userId && MatchesFilters(rows[id], filters)
    }

    /** `markAsRead`: false for an unknown id; otherwise `read_at` is set to `now`
        (also when it was already set) and nothing else changes. */
    method MarkAsRead(notificationId: int, now: string) returns (ok: bool)
      requires Valid()
      modifies this`rows
      ensures Valid()
      ensures ok <==> notificationId in old(rows)
      ensures ok ==> rows == old(rows)[notificationId := old(rows)[notificationId].(readAt := Some(now))]
      ensures !ok ==> rows == old(rows)
    {
      if notificationId !in rows {
        return false;
      }
      rows := rows[notificationId := rows[notificationId].(readAt := Some(now))];
      ok := true;
    }

    /** `markAsUnread`: false for an unknown id; otherwise `read_at` is cleared. */
    method MarkAsUnread(notificationId: int) returns (ok: bool)
      requires Valid()
      modifies this`rows
      ensures Valid()
      ensures ok <==> notificationId in old(rows)
      ensures ok ==> rows == old(rows)[notificationId := old(rows)[notificationId].(readAt := None)]
      ensures !ok ==> rows == old(rows)
    {
      if notificationId !in rows {
        return false;
      }
      rows := rows[notificationId := rows[notificationId].(readAt := None)];
      ok := true;
    }

    /** `markAllAsRead`: stamps exactly the user's unread notifications and returns
        how many it stamped; afterwards the user has none unread, and rows of
        other users and already-read rows are untouched. */
    method MarkAllAsRead(userId: int, now: string) returns (count: nat)
      requires Valid()
      modifies this`rows
      ensures Valid()
      ensures count == |old(UnreadOf(userId))|
      ensures rows.Keys == old(rows).Keys
      ensures forall id :: id in rows ==>
        rows[id] == if id in old(UnreadOf(userId)) then old(rows)[id].(readAt := Some(now)) else old(rows)[id]
      ensures UnreadOf(userId) == {}
    {
      ghost var before := rows;
      count := |UnreadOf(userId)|;
      var unread := UnreadOf(userId);
      rows := map id | id in rows :: if id in unread then rows[id].(readAt := Some(now)) else rows[id];
      assert forall id :: id in rows ==> rows[id].userId == before[id].userId;
    }

    /** `deleteByUser`: deletes the notification only when the user owns it. */
    method DeleteByUser(userId: int, notificationId: int) returns (ok: bool)
      requires Valid()
      modifies this`rows
      ensures Valid()
      ensures ok <==> old(FindByUser(userId, notificationId)).Some?
      ensures rows == if ok then old(rows) - {notificationId} else old(rows)
    {
      if FindByUser(userId, notificationId).None? {
        return false;
      }
      rows := rows - {notificationId};
      ok := true;
    }

    /** `deleteAllRead`: removes exactly the user's read notifications and returns
        their number; everything else stays. */
    method DeleteAllRead(userId: int) returns (count: nat)
      requires Valid()
      modifies this`rows
      ensures Valid()
      ensures count == |old(ReadOf(userId))|
      ensures rows == old(rows) - old(ReadOf(userId))
      ensures ReadOf(userId) == {} && UnreadOf(userId) == old(UnreadOf(userId))
    {
      var read := ReadOf(userId);
      count := |read|;
      rows := rows - read;
    }

    /** `createNotification`: one new row owned by the user, with the given fields
        and unread. */
    method CreateNotification(userId: int, kind: string, title: string, message: string,
                              data: map<string, DataValue>)
      returns (n: Notification)
      requires Valid()
      modifies this
      ensures Valid()
      ensures n == Notification(old(nextId), userId, kind, title, message, data, None)
      ensures n.id !in old(rows) && rows == old(rows)[n.id := n]
      ensures UnreadOf(userId) == old(UnreadOf(userId)) + {n.id}
    {
      n := Notification(nextId, userId, kind, title, message, data, None);
      rows := rows[nextId := n];
      nextId := nextId + 1;
    }
  }

  /** A subset is no larger than its superset. */
  lemma {:induction false} SubsetCardinality(a: set<int>, b: set<int>)
    requires a <= b
    ensures |a| <= |b|
    decreases b
  {
    if a != {} {
      EmptyOrInhabited(a);
      var x :| x in a;
      SubsetCardinality(a - {x}, b - {x});
    }
  }

  /** The two read filters together admit nothing, and the type filter alone
      leaves the read state open; a read filter given as the string "false" is
      still applied, since that string is truthy. */
  lemma FiltersExclusive(n: Notification, kind: Option<string>)
    ensures !MatchesFilters(n, NotificationFilters(Some("1"), Some("1"), kind))
    ensures MatchesFilters(n, NotificationFilters(Some("false"), None, None)) <==> n.readAt.None?
    ensures MatchesFilters(n, NotificationFilters(Some("0"), None, None))
  {
  }

  /** Every one of the user's notifications is either unread or read, never both. */
  lemma UnreadReadPartition(r: NotificationRepository, userId: int)
    ensures r.UnreadOf(userId) !! r.ReadOf(userId)
    ensures r.UnreadOf(userId) + r.ReadOf(userId)
         == r.GetByUser(userId, NotificationFilters(None, None, None))
  {
  }
}
