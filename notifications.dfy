/** The notifications dialog: the read state of the loaded notifications, the unread badge and
    button rules, and the answer to a task invitation. */
module Notifications {
  import opened Wrappers
  import opened Seqs
  import opened Store

  /** The `data` of a task invitation: the ids its buttons pass on. */
  datatype InvitationData = InvitationData(taskId: string, invitationId: string)

  /** A row of `notifications`. `data` is `None` where the row's data is falsy. */
  datatype Notification = Notification(
    id: string,
    kind: string,
    title: string,
    message: string,
    data: Option<InvitationData>,
    read: bool,
    createdAt: int)

  predicate Unread(n: Notification) {
    !n.read
  }

  /** `notifications.filter(n => !n.read).length`. */
  function UnreadCount(ns: seq<Notification>): (r: nat)
    ensures r <= |ns|
    ensures r == 0 <==> forall i :: 0 <= i < |ns| ==> ns[i].read
  {
    var u := FilterBy(ns, Unread);
    if forall i :: 0 <= i < |ns| ==> ns[i].read then
      FilterByDropsAll(ns, Unread);
      |u|
    else
      var i :| 0 <= i < |ns| && !ns[i].read;
      assert multiset(u)[ns[i]] == multiset(ns)[ns[i]] > 0;
      |u|
  }

  /** The unread badge is shown. */
  predicate ShowsUnreadBadge(ns: seq<Notification>) {
    UnreadCount(ns) > 0
  }

  /** "Mark all read" is shown: `notifications.some(n => !n.read)`. */
  predicate ShowsMarkAllRead(ns: seq<Notification>) {
    exists i :: 0 <= i < |ns| && !ns[i].read
  }

  /** The badge and the "Mark all read" button appear together. */
  lemma BadgeAndMarkAllAgree(ns: seq<Notification>)
    ensures ShowsUnreadBadge(ns) <==> ShowsMarkAllRead(ns)
  {
  }

  /** Accept and Decline are shown on an invitation with data, whatever its read flag. */
  predicate ShowsInvitationButtons(n: Notification) {
    n.kind == "task_invitation" && n.data.Some?
  }

  /** The per-item "Mark as read" is shown on an unread item that is not an invitation. */
  predicate ShowsMarkAsRead(n: Notification) {
    !n.read && n.kind != "task_invitation"
  }

  /** No item shows both kinds of buttons; a read item shows "Mark as read" never, but an
      answered invitation still offers Accept and Decline. */
  lemma ItemButtons(n: Notification)
    ensures !(ShowsInvitationButtons(n) && ShowsMarkAsRead(n))
    ensures n.read ==> !ShowsMarkAsRead(n)
    ensures n.read && n.kind == "task_invitation" && n.data.Some? ==> ShowsInvitationButtons(n)
  {
  }

  /** `prev.map(n => n.id === id ? { ...n, read: true } : n)`. */
  function MarkedRead(ns: seq<Notification>, id: string): (r: seq<Notification>)
    ensures |r| == |ns|
    ensures forall i :: 0 <= i < |ns| ==> ns[i].id != id ==> r[i] == ns[i]
    ensures forall i :: 0 <= i < |ns| ==> ns[i].id == id ==> r[i] == ns[i].(read := true)
  {
    MapSeq(ns, (n: Notification) => if n.id == id then n.(read := true) else n)
  }

  /** `prev.map(n => ({ ...n, read: true }))`. */
  function AllRead(ns: seq<Notification>): (r: seq<Notification>)
    ensures |r| == |ns|
    ensures forall i :: 0 <= i < |ns| ==> r[i] == ns[i].(read := true)
  {
    MapSeq(ns, (n: Notification) => n.(read := true))
  }

  /** Marking one read is idempotent, leaves nothing unread with that id, and lowers the unread
      count by the number of unread copies of that id. */
  lemma {:induction false} MarkedReadFacts(ns: seq<Notification>, id: string)
    ensures MarkedRead(MarkedRead(ns, id), id) == MarkedRead(ns, id)
    ensures forall i :: 0 <= i < |ns| && ns[i].id == id ==> MarkedRead(ns, id)[i].read
    ensures UnreadCount(MarkedRead(ns, id)) ==
      UnreadCount(ns) - |FilterBy(ns, (n: Notification) => !n.read && n.id == id)|
  {
    var m := MarkedRead(ns, id);
    var mm := MarkedRead(m, id);
    assert mm == m;
    UnreadAfterMark(ns, id);
  }

  lemma {:induction false} UnreadAfterMark(ns: seq<Notification>, id: string)
    ensures |FilterBy(MarkedRead(ns, id), Unread)| + |FilterBy(ns, (n: Notification) => !n.read && n.id == id)| ==
      |FilterBy(ns, Unread)|
  {
    var hit := (n: Notification) => !n.read && n.id == id;
    if |ns| > 0 {
      UnreadAfterMark(ns[1..], id);
      assert MarkedRead(ns, id)[1..] == MarkedRead(ns[1..], id);
      FilterByCons(MarkedRead(ns, id), Unread);
      FilterByCons(ns, hit);
      FilterByCons(ns, Unread);
    }
  }

  /** After "mark all", nothing is unread and only the read flags changed. */
  lemma AllReadFacts(ns: seq<Notification>)
    ensures UnreadCount(AllRead(ns)) == 0
    ensures !ShowsUnreadBadge(AllRead(ns)) && !ShowsMarkAllRead(AllRead(ns))
    ensures AllRead(AllRead(ns)) == AllRead(ns)
    ensures forall i :: 0 <= i < |ns| ==> AllRead(ns)[i].(read := ns[i].read) == ns[i]
  {
    assert AllRead(AllRead(ns)) == AllRead(ns);
  }

  /** The invitation buttons' action. */
  datatype InvitationAction = Accept | Reject

  /** The invitation status an action writes. */
  function InvitationStatus(a: InvitationAction): string {
    match a
    case Accept => "accepted"
    case Reject => "rejected"
  }

  /** The dialog's state. */
  class NotificationCenter {
    /** `user?.id`. */
    const userId: Option<string>
    var notifications: seq<Notification>
    var loading: bool
    /** The writes sent to the store so far, oldest first. */
    var sent: seq<Write>

    constructor(userId: Option<string>)
      ensures this.userId == userId && notifications == [] && !loading && sent == []
    {
      this.userId := userId;
      notifications := [];
      loading := false;
      sent := [];
    }

    /** `fetchNotifications`: the rows read replace the list; a failed read keeps it. */
    method FetchNotifications(rows: ReadReply<seq<Notification>>)
      modifies this
      ensures notifications == (if rows.Rows? then rows.value else old(notifications))
      ensures !loading && sent == old(sent)
    {
      loading := true;
      if rows.Rows? {
        notifications := rows.value;
      }
      loading := false;
    }

    /** `markAsRead`: the update is sent; on success exactly the notifications with that id
        become read. A failure is only logged. */
    method MarkAsRead(id: string, reply: Reply)
      modifies this
      ensures sent == old(sent) + [MarkRead(id)]
      ensures notifications == (if reply.Ok? then MarkedRead(old(notifications), id) else old(notifications))
      ensures loading == old(loading)
    {
      sent := sent + [MarkRead(id)];
      if reply.Ok? {
        notifications := MarkedRead(notifications, id);
      }
    }

    /** `markAllAsRead`: one update for the user's unread rows; on success every loaded
        notification becomes read. */
    method MarkAllAsRead(reply: Reply) returns (o: Outcome)
      modifies this
      ensures sent == old(sent) + [MarkAllRead(userId)]
      ensures reply.Ok? ==> o == Done && notifications == AllRead(old(notifications))
      ensures reply.Err? ==> o == Failed && notifications == old(notifications)
      ensures loading == old(loading)
    {
      sent := sent + [MarkAllRead(userId)];
      if reply.Err? {
        return Failed;
      }
      notifications := AllRead(notifications);
      o := Done;
    }

    /** `handleTaskInvitation`: the invitation's new status is sent; on success the
        notification is marked read (whose own failure goes unreported) and the caller
        refreshes the list. On failure nothing else happens. */
    method AnswerInvitation(notificationId: string, invitationId: string, a: InvitationAction,
                            updated: Reply, marked: Reply, at: int) returns (o: Outcome)
      modifies this
      ensures updated.Err? ==>
        o == Failed && sent == old(sent) + [UpdateInvitation(invitationId, InvitationStatus(a), at)] &&
        notifications == old(notifications)
      ensures updated.Ok? ==>
        && o == Done
        && sent == old(sent) + [UpdateInvitation(invitationId, InvitationStatus(a), at), MarkRead(notificationId)]
        && notifications == (if marked.Ok? then MarkedRead(old(notifications), notificationId) else old(notifications))
      ensures loading == old(loading)
    {
      sent := sent + [UpdateInvitation(invitationId, InvitationStatus(a), at)];
      if updated.Err? {
        return Failed;
      }
      MarkAsRead(notificationId, marked);
      o := Done;
    }
  }
}
