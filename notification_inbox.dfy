/**
 * `NotificationController`: the caller's notifications (newest first, optionally unread
 * only), the unread count, and marking some or all of them read.
 */
module NotificationInbox {
  import opened Common
  import opened Records
  import opened Sorting
  import opened Store

  /** `latest()` orders by created_at descending. */
  function NewestFirstKey(n: Notification): int { -(n.createdAt as int) }

  /** `$request->query('unread_only', false)` used as a condition: any truthy query string. */
  predicate UnreadOnly(flag: Option<string>)
  {
    StringIsSet(flag)
  }

  /** The `where` clauses of `index`. */
  predicate Listed(n: Notification, userId: nat, unreadOnly: Option<string>)
  {
    n.userId == userId && (UnreadOnly(unreadOnly) ==> !n.read)
  }

  /** `index`: the caller's notifications, unread only when asked, newest first. */
  function Index(notifications: seq<Notification>, userId: nat, unreadOnly: Option<string>): (r: seq<Notification>)
    ensures forall n :: n in r <==> n in notifications && Listed(n, userId, unreadOnly)
    ensures forall n :: multiset(r)[n] == if Listed(n, userId, unreadOnly) then multiset(notifications)[n] else 0
    ensures SortedBy(r, NewestFirstKey)
  {
    var keep := (n: Notification) => Listed(n, userId, unreadOnly);
    var mine := Filter(notifications, keep);
    FilterCount(notifications, keep);
    assert forall n :: n in mine <==> n in notifications && Listed(n, userId, unreadOnly);
    var r := SortBy(mine, NewestFirstKey);
    assert forall n :: n in r <==> n in multiset(mine);
    SortBySorted(mine, NewestFirstKey);
    r
  }

  /** The query string `unread_only=false` still filters: it is a non-empty string. */
  lemma FalseStringStillFilters()
    ensures UnreadOnly(Some("false"))
  {
    assert "false" != "" && "false" != "0" by {
      assert |"false"| == 5;
    }
  }

  /** The caller's unread notifications. */
  function Unread(notifications: seq<Notification>, userId: nat): seq<Notification>
  {
    Filter(notifications, (n: Notification) => n.userId == userId && !n.read)
  }

  /** `unread_count`. */
  function UnreadCount(notifications: seq<Notification>, userId: nat): (c: nat)
    ensures c <= |notifications|
    ensures c == 0 <==> forall n :: n in notifications && n.userId == userId ==> n.read
  {
    var u := Unread(notifications, userId);
    assert u != [] ==> u[0] in u;
    |u|
  }

  /** The `update(['read' => true])` of one row under a `where` condition. */
  function MarkIf(n: Notification, hit: bool): (m: Notification)
    ensures m.id == n.id && m.userId == n.userId && m.payload == n.payload && m.kind == n.kind
    ensures m.read == (n.read || hit)
  {
    if hit then n.(read := true) else n
  }

  /** `whereIn('id', $ids)->where('user_id', $user->id)`. */
  predicate MarkReadHits(n: Notification, userId: nat, ids: set<nat>)
  {
    n.id in ids && n.userId == userId
  }

  /** The table after `markRead`. */
  function MarkRead(notifications: seq<Notification>, userId: nat, ids: set<nat>): (r: seq<Notification>)
    ensures |r| == |notifications|
    ensures forall i :: 0 <= i < |r| ==> r[i] == MarkIf(notifications[i], MarkReadHits(notifications[i], userId, ids))
  {
    seq(|notifications|, i requires 0 <= i < |notifications| =>
      MarkIf(notifications[i], MarkReadHits(notifications[i], userId, ids)))
  }

  /**
   * `markRead` reads exactly the listed notifications that are the caller's; nothing else
   * changes, and another user's notification stays as it was even when its id is listed.
   */
  lemma MarkReadEffect(notifications: seq<Notification>, userId: nat, ids: set<nat>, i: nat)
    requires i < |notifications|
    ensures var before, after := notifications[i], MarkRead(notifications, userId, ids)[i];
      (before.userId == userId && before.id in ids ==> after.read)
      && (before.userId != userId || before.id !in ids ==> after == before)
      && after.(read := before.read) == before
  {
  }

  /** The ids an authorised `markRead` request may list: `required|array`, each `integer|exists`. */
  predicate IdsValid(ids: seq<int>, notifications: seq<Notification>)
  {
    ids != [] && forall k :: 0 <= k < |ids| ==> ids[k] >= 0 && ids[k] as nat in Ids(notifications, NotificationId)
  }

  function IdSet(ids: seq<int>): set<nat>
  {
    set k | 0 <= k < |ids| && ids[k] >= 0 :: ids[k] as nat
  }

  /** Marking rows read keeps the table's ids. */
  lemma MarkedTable(notifications: seq<Notification>, marked: seq<Notification>, hit: Notification -> bool, next: nat)
    requires TableOk(notifications, NotificationId, next)
    requires |marked| == |notifications|
    requires forall i :: 0 <= i < |marked| ==> marked[i] == MarkIf(notifications[i], hit(notifications[i]))
    ensures TableOk(marked, NotificationId, next)
  {
    forall x, y | x in marked && y in marked && x.id == y.id ensures x == y {
      var i :| 0 <= i < |marked| && marked[i] == x;
      var j :| 0 <= j < |marked| && marked[j] == y;
      assert notifications[i] in notifications && notifications[j] in notifications;
    }
    forall x | x in marked ensures 1 <= x.id < next {
      var i :| 0 <= i < |marked| && marked[i] == x;
      assert notifications[i] in notifications;
    }
  }

  datatype InboxError = ValidationFailed

  /** `markRead`: a bulk update, row by row. */
  method MarkReadRows(db: Db, userId: nat, ids: seq<int>) returns (r: Result<(), InboxError>)
    requires db.Valid()
    modifies db`notifications
    ensures db.Valid()
    ensures r.Err? <==> !IdsValid(ids, old(db.notifications))
    ensures r.Err? ==> db.notifications == old(db.notifications)
    ensures r.Ok? ==> db.notifications == MarkRead(old(db.notifications), userId, IdSet(ids))
  {
    if !IdsValid(ids, db.notifications) {
      return Err(ValidationFailed);
    }
    var wanted := IdSet(ids);
    var rows := db.notifications;
    var updated: seq<Notification> := [];
    var i := 0;
    while i < |rows|
      invariant 0 <= i <= |rows|
      invariant updated == MarkRead(rows[..i], userId, wanted)
    {
      updated := updated + [MarkIf(rows[i], rows[i].id in wanted && rows[i].userId == userId)];
      i := i + 1;
    }
    assert rows[..i] == rows;
    MarkedTable(rows, updated, (n: Notification) => MarkReadHits(n, userId, wanted), db.nextId);
    db.notifications := updated;
    r := Ok(());
  }

  /** The table after `markAllRead`. */
  function MarkAllRead(notifications: seq<Notification>, userId: nat): (r: seq<Notification>)
    ensures |r| == |notifications|
    ensures forall i :: 0 <= i < |r| ==> r[i] == MarkIf(notifications[i], notifications[i].userId == userId && !notifications[i].read)
  {
    seq(|notifications|, i requires 0 <= i < |notifications| =>
      MarkIf(notifications[i], notifications[i].userId == userId && !notifications[i].read))
  }

  /** After `markAllRead` the caller has nothing unread; everyone else's rows are as they were. */
  lemma MarkAllReadEffect(notifications: seq<Notification>, userId: nat)
    ensures UnreadCount(MarkAllRead(notifications, userId), userId) == 0
    ensures forall i :: 0 <= i < |notifications| && notifications[i].userId != userId ==>
      MarkAllRead(notifications, userId)[i] == notifications[i]
  {
    var r := MarkAllRead(notifications, userId);
    forall n | n in r && n.userId == userId ensures n.read {
      var i :| 0 <= i < |r| && r[i] == n;
    }
  }

  /** Marking everything read is marking read every id the caller owns. */
  lemma MarkAllIsMarkOwn(notifications: seq<Notification>, userId: nat)
    ensures MarkAllRead(notifications, userId) == MarkRead(notifications, userId, Ids(notifications, NotificationId))
  {
    var a, b := MarkAllRead(notifications, userId), MarkRead(notifications, userId, Ids(notifications, NotificationId));
    forall i | 0 <= i < |a| ensures a[i] == b[i] {
      assert notifications[i] in notifications;
    }
  }

  /** `markAllRead`: a bulk update, row by row. */
  method MarkAllReadRows(db: Db, userId: nat)
    requires db.Valid()
    modifies db`notifications
    ensures db.Valid()
    ensures db.notifications == MarkAllRead(old(db.notifications), userId)
  {
    var rows := db.notifications;
    var updated: seq<Notification> := [];
    var i := 0;
    while i < |rows|
      invariant 0 <= i <= |rows|
      invariant updated == MarkAllRead(rows[..i], userId)
    {
      updated := updated + [MarkIf(rows[i], rows[i].userId == userId && !rows[i].read)];
      i := i + 1;
    }
    assert rows[..i] == rows;
    MarkedTable(rows, updated, (n: Notification) => n.userId == userId && !n.read, db.nextId);
    db.notifications := updated;
  }
}
