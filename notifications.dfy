/**
 * The notifications page: a list of notifications, a filter tab, and three
 * updates of the list (mark all as read, mark one as read, delete one).
 */
module Notifications {
  import Seqs

  /** What a notification is about. */
  datatype Category = Sales | System | Users | Inventory

  /** The filter tabs. There is no tab for inventory notifications. */
  datatype Tab = AllTab | UnreadTab | SalesTab | SystemTab | UsersTab

  datatype Notification = Notification(
    id: int, title: string, message: string, category: Category,
    time: string, read: bool, icon: string, iconBg: string)

  /** Whether tab `tab` lists notification `n`. */
  predicate Shows(tab: Tab, n: Notification) {
    match tab
    case AllTab => true
    case UnreadTab => !n.read
    case SalesTab => n.category == Sales
    case SystemTab => n.category == System
    case UsersTab => n.category == Users
  }

  function ShownBy(tab: Tab): Notification -> bool {
    n => Shows(tab, n)
  }

  /** `filteredNotifications`: the notifications the tab lists, in list order. */
  function Filtered(list: seq<Notification>, tab: Tab): (r: seq<Notification>)
    ensures Seqs.IsSubseq(r, list)
    ensures tab == AllTab ==> r == list
    ensures forall n :: n in r <==> n in list && Shows(tab, n)
    ensures forall n :: multiset(r)[n] == if Shows(tab, n) then multiset(list)[n] else 0
  {
    forall n ensures multiset(Seqs.Filter(list, ShownBy(tab)))[n] == if Shows(tab, n) then multiset(list)[n] else 0 {
      Seqs.FilterCount(list, ShownBy(tab), n);
    }
    Seqs.FilterIsSubseq(list, ShownBy(tab));
    forall n ensures n in Seqs.Filter(list, ShownBy(tab)) <==> n in list && Shows(tab, n) {
      Seqs.FilterMembership(list, ShownBy(tab), n);
    }
    if tab == AllTab then
      Seqs.FilterAll(list, ShownBy(tab));
      Seqs.Filter(list, ShownBy(tab))
    else Seqs.Filter(list, ShownBy(tab))
  }

  /** An inventory notification is listed only under "all" and, while unread, "unread". */
  lemma InventoryTabs(list: seq<Notification>, n: Notification, tab: Tab)
    requires n in list && n.category == Inventory
    ensures n in Filtered(list, tab) <==> tab == AllTab || (tab == UnreadTab && !n.read)
  {
  }

  function IsUnread(n: Notification): bool { !n.read }

  /** `unreadCount`: how many notifications are unread. */
  function UnreadCount(list: seq<Notification>): (c: nat)
    ensures c <= |list|
    ensures c == |Filtered(list, UnreadTab)|
    ensures c == 0 <==> forall i :: 0 <= i < |list| ==> list[i].read
  {
    assert Seqs.Filter(list, IsUnread) == Seqs.Filter(list, ShownBy(UnreadTab)) by {
      SameFilter(list, IsUnread, ShownBy(UnreadTab));
    }
    var unread := Seqs.Filter(list, IsUnread);
    forall n ensures n in unread <==> n in list && !n.read {
      Seqs.FilterMembership(list, IsUnread, n);
    }
    assert unread != [] ==> unread[0] in unread;
    |unread|
  }

  lemma {:induction false} SameFilter<T>(s: seq<T>, p: T -> bool, q: T -> bool)
    requires forall x :: p(x) == q(x)
    ensures Seqs.Filter(s, p) == Seqs.Filter(s, q)
  {
    if s != [] {
      SameFilter(s[1..], p, q);
    }
  }

  /** The "Unread" tab shows a badge exactly when something is unread. */
  predicate ShowsBadge(tab: Tab, unreadCount: nat) {
    tab == UnreadTab && unreadCount > 0
  }

  /** The badge appears on the "Unread" tab alone, and there exactly when some
      notification in the list is unread. */
  lemma BadgeIffUnread(tab: Tab, list: seq<Notification>)
    ensures ShowsBadge(tab, UnreadCount(list)) <==> tab == UnreadTab && exists i :: 0 <= i < |list| && !list[i].read
  {
  }

  /** `markAllAsRead`: the same notifications in the same order, all read. */
  function MarkAll(list: seq<Notification>): (r: seq<Notification>)
    ensures |r| == |list|
    ensures forall i :: 0 <= i < |list| ==> r[i] == list[i].(read := true)
    ensures UnreadCount(r) == 0
  {
    seq(|list|, i requires 0 <= i < |list| => list[i].(read := true))
  }

  /** `markAsRead(id)`: the notifications with that id become read, the others are untouched. */
  function MarkRead(list: seq<Notification>, id: int): (r: seq<Notification>)
    ensures |r| == |list|
    ensures forall i :: 0 <= i < |list| ==> r[i] == if list[i].id == id then list[i].(read := true) else list[i]
  {
    seq(|list|, i requires 0 <= i < |list| => if list[i].id == id then list[i].(read := true) else list[i])
  }

  /** Marking the same notification twice is marking it once. */
  lemma MarkReadIdempotent(list: seq<Notification>, id: int)
    ensures MarkRead(MarkRead(list, id), id) == MarkRead(list, id)
  {
  }

  /** Marking one notification as read lowers the unread count by the unread entries with that id. */
  lemma {:induction false} MarkReadCount(list: seq<Notification>, id: int)
    ensures UnreadCount(MarkRead(list, id)) + |Seqs.Filter(list, UnreadWithId(id))| == UnreadCount(list)
  {
    MarkReadFilter(list, id);
  }

  lemma {:induction false} MarkReadFilter(list: seq<Notification>, id: int)
    ensures |Seqs.Filter(MarkRead(list, id), IsUnread)| + |Seqs.Filter(list, UnreadWithId(id))|
         == |Seqs.Filter(list, IsUnread)|
  {
    if list != [] {
      var m := MarkRead(list, id);
      MarkReadFilter(list[1..], id);
      assert m[1..] == MarkRead(list[1..], id);
    }
  }

  function UnreadWithId(id: int): Notification -> bool {
    (n: Notification) => !n.read && n.id == id
  }

  lemma UnreadFilterCons(list: seq<Notification>)
    requires list != []
    ensures UnreadCount(list) == (if list[0].read then 0 else 1) + UnreadCount(list[1..])
  {
    assert Seqs.Filter(list, IsUnread)
        == (if IsUnread(list[0]) then [list[0]] else []) + Seqs.Filter(list[1..], IsUnread);
  }

  /** `deleteNotification(id)`: every notification with that id is removed, the rest keep their order. */
  function Delete(list: seq<Notification>, id: int): (r: seq<Notification>)
    ensures Seqs.IsSubseq(r, list)
    ensures forall n :: n in r <==> n in list && n.id != id
    ensures UnreadCount(r) <= UnreadCount(list)
    ensures forall n :: multiset(r)[n] == if n.id != id then multiset(list)[n] else 0
  {
    forall n ensures multiset(Seqs.Filter(list, HasOtherId(id)))[n] == if n.id != id then multiset(list)[n] else 0 {
      Seqs.FilterCount(list, HasOtherId(id), n);
    }
    Seqs.FilterIsSubseq(list, HasOtherId(id));
    forall n ensures n in Seqs.Filter(list, HasOtherId(id)) <==> n in list && n.id != id {
      Seqs.FilterMembership(list, HasOtherId(id), n);
    }
    DeleteCount(list, id);
    Seqs.Filter(list, HasOtherId(id))
  }

  function HasOtherId(id: int): Notification -> bool {
    (n: Notification) => n.id != id
  }

  lemma {:induction false} DeleteCount(list: seq<Notification>, id: int)
    ensures UnreadCount(Seqs.Filter(list, HasOtherId(id))) <= UnreadCount(list)
  {
    if list != [] {
      DeleteCount(list[1..], id);
      var rest := Seqs.Filter(list[1..], HasOtherId(id));
      UnreadFilterCons(list);
      if list[0].id != id {
        assert Seqs.Filter(list, HasOtherId(id)) == [list[0]] + rest;
        UnreadFilterCons([list[0]] + rest);
        assert ([list[0]] + rest)[1..] == rest;
      } else {
        assert Seqs.Filter(list, HasOtherId(id)) == rest;
      }
    }
  }

  /** The page's state: the notification list and the active tab. */
  class NotificationsPage {
    var notifications: seq<Notification>
    var activeFilter: Tab

    constructor (initial: seq<Notification>)
      ensures notifications == initial && activeFilter == AllTab
    {
      notifications := initial;
      activeFilter := AllTab;
    }

    /** The notifications rendered under the active tab. */
    function Visible(): (r: seq<Notification>)
      reads this
      ensures Seqs.IsSubseq(r, notifications)
      ensures forall n :: multiset(r)[n] == if Shows(activeFilter, n) then multiset(notifications)[n] else 0
    {
      Filtered(notifications, activeFilter)
    }

    method SelectTab(tab: Tab)
      modifies this
      ensures activeFilter == tab && notifications == old(notifications)
    {
      activeFilter := tab;
    }

    method MarkAllAsRead()
      modifies this
      ensures notifications == MarkAll(old(notifications)) && activeFilter == old(activeFilter)
      ensures UnreadCount(notifications) == 0
    {
      notifications := MarkAll(notifications);
    }

    method MarkAsRead(id: int)
      modifies this
      ensures notifications == MarkRead(old(notifications), id) && activeFilter == old(activeFilter)
    {
      notifications := MarkRead(notifications, id);
    }

    method DeleteNotification(id: int)
      modifies this
      ensures notifications == Delete(old(notifications), id) && activeFilter == old(activeFilter)
    {
      notifications := Delete(notifications, id);
    }
  }
}
