/** Message rows and the service functions that save, mark and unsend them. */
module Messages {
  import opened Common

  type UserId = string
  type GroupId = string
  type MsgId = nat

  const UNSEND_WINDOW: int := 5 * 60

  datatype Status = Sent | Delivered | Read | Failed

  /** A row of `messages`; the parties and times are fixed when it is saved. */
  datatype Row = Row(
    sender: UserId, recipient: Option<UserId>, group: Option<GroupId>, messageType: string,
    content: Option<string>, mediaKey: Option<string>, mediaMime: Option<string>,
    status: Status, deliveredAt: Option<int>, readAt: Option<int>,
    isSelfDestruct: bool, destructAfter: Option<int>, destructAt: Option<int>, destructed: bool,
    deletedForEveryone: bool, deletedAt: Option<int>, createdAt: int)

  /** The arguments of `save_message`. */
  datatype Draft = Draft(sender: UserId, recipient: Option<UserId>, group: Option<GroupId>, messageType: string,
                         content: Option<string>, mediaKey: Option<string>, mediaMime: Option<string>,
                         destructAfter: Option<int>)

  /** A timer of zero seconds counts as none. */
  function Timer(after: Option<int>): Option<int> {
    if after == Some(0) then None else after
  }

  /** `created` is the row's own timestamp, taken a little after `now`. */
  function NewRow(d: Draft, now: int, created: int): Row {
    Row(d.sender, d.recipient, d.group, d.messageType, d.content, d.mediaKey, d.mediaMime,
        Sent, Some(now), None,
        d.destructAfter.Some?, d.destructAfter,
        if Timer(d.destructAfter).Some? then Some(now + d.destructAfter.value) else None, false,
        false, None, created)
  }

  function Participates(row: Row, user: UserId, members: set<(GroupId, UserId)>): bool {
    if row.group.Some? then (row.group.value, user) in members
    else row.sender == user || row.recipient == Some(user)
  }

  function DeliveredRow(row: Row, now: int): Row {
    if row.deliveredAt.None? then row.(deliveredAt := Some(now)) else row
  }

  function ReadRow(row: Row, now: int): Row {
    if row.status == Read then row
    else
      var stamped := row.(status := Read, readAt := Some(now),
                          deliveredAt := if row.deliveredAt.None? then Some(now) else row.deliveredAt);
      if row.isSelfDestruct && Timer(row.destructAfter).Some? && row.destructAt.None?
      then stamped.(destructAt := Some(now + row.destructAfter.value))
      else stamped
  }

  function MayUnsend(row: Row, user: UserId, now: int): bool {
    row.sender == user && now - row.createdAt <= UNSEND_WINDOW
  }

  function UnsentRow(row: Row, now: int): Row {
    row.(content := None, mediaKey := None, mediaMime := None, deletedForEveryone := true, deletedAt := Some(now))
  }

  /** Content and media pointers of a retracted or destructed row. */
  predicate Blank(row: Row) {
    row.content.None? && row.mediaKey.None? && row.mediaMime.None?
  }

  /** The table, reached through one session at a time. */
  class MessageStore {
    var rows: map<MsgId, Row>

    constructor ()
      ensures rows == map[]
    {
      rows := map[];
    }

    /** `id` is the random primary key.  The target constraint wants a recipient or a group,
        not both. */
    method SaveMessage(id: MsgId, d: Draft, now: int, created: int) returns (ok: bool)
      requires id !in rows
      modifies this
      ensures ok <==> d.recipient.Some? != d.group.Some?
      ensures rows == if ok then old(rows)[id := NewRow(d, now, created)] else old(rows)
      ensures ok ==>
                && rows[id].sender == d.sender && rows[id].recipient == d.recipient && rows[id].group == d.group
                && rows[id].messageType == d.messageType && rows[id].content == d.content
                && rows[id].mediaKey == d.mediaKey && rows[id].mediaMime == d.mediaMime
                && rows[id].status == Sent && rows[id].deliveredAt == Some(now) && rows[id].readAt == None
                && rows[id].isSelfDestruct == d.destructAfter.Some? && rows[id].destructAfter == d.destructAfter
                && rows[id].destructAt == (if d.destructAfter.Some? && d.destructAfter.value != 0
                                           then Some(now + d.destructAfter.value) else None)
                && !rows[id].destructed && !rows[id].deletedForEveryone && rows[id].deletedAt == None
                && rows[id].createdAt == created
    {
      var destructAt: Option<int> := None;
      if d.destructAfter.Some? && d.destructAfter.value != 0 {
        destructAt := Some(now + d.destructAfter.value);
      }
      var row := Row(d.sender, d.recipient, d.group, d.messageType, d.content, d.mediaKey, d.mediaMime,
                     Sent, Some(now), None, d.destructAfter.Some?, d.destructAfter, destructAt, false, false, None,
                     created);
      ok := (d.recipient.Some? && d.group.None?) || (d.recipient.None? && d.group.Some?);
      if ok {
        rows := rows[id := row];
      }
    }

    method MarkDelivered(id: MsgId, user: UserId, members: set<(GroupId, UserId)>, now: int) returns (r: Option<Row>)
      modifies this
      ensures r.Some? <==> id in old(rows) && Participates(old(rows)[id], user, members)
      ensures r.Some? <==> id in old(rows) && if old(rows)[id].group.Some?
                                              then (old(rows)[id].group.value, user) in members
                                              else user == old(rows)[id].sender || Some(user) == old(rows)[id].recipient
      ensures rows == if r.Some? then old(rows)[id := DeliveredRow(old(rows)[id], now)] else old(rows)
      ensures r.Some? ==> rows[id] == old(rows)[id].(deliveredAt := if old(rows)[id].deliveredAt.None? then Some(now)
                                                                    else old(rows)[id].deliveredAt)
      ensures r.Some? ==> r.value == rows[id]
    {
      if id !in rows || !Participates(rows[id], user, members) {
        return None;
      }
      if rows[id].deliveredAt.None? {
        rows := rows[id := rows[id].(deliveredAt := Some(now))];
      }
      return Some(rows[id]);
    }

    method MarkRead(id: MsgId, user: UserId, members: set<(GroupId, UserId)>, now: int) returns (r: Option<Row>)
      modifies this
      ensures r.Some? <==> id in old(rows) && Participates(old(rows)[id], user, members)
      ensures r.Some? <==> id in old(rows) && if old(rows)[id].group.Some?
                                              then (old(rows)[id].group.value, user) in members
                                              else user == old(rows)[id].sender || Some(user) == old(rows)[id].recipient
      ensures rows == if r.Some? then old(rows)[id := ReadRow(old(rows)[id], now)] else old(rows)
      // The first reading sets the time of the call; a later one changes nothing.
      ensures r.Some? && old(rows)[id].status == Read ==> rows == old(rows)
      ensures r.Some? && old(rows)[id].status != Read ==>
                && rows[id].status == Read && rows[id].readAt == Some(now)
                && rows[id].deliveredAt ==
                     (if old(rows)[id].deliveredAt.None? then Some(now) else old(rows)[id].deliveredAt)
                && rows[id].destructAt ==
                     (if old(rows)[id].destructAt.None? && old(rows)[id].isSelfDestruct
                         && old(rows)[id].destructAfter.Some? && old(rows)[id].destructAfter.value != 0
                      then Some(now + old(rows)[id].destructAfter.value) else old(rows)[id].destructAt)
                && rows == old(rows)[id := old(rows)[id].(status := rows[id].status, readAt := rows[id].readAt,
                                                          deliveredAt := rows[id].deliveredAt,
                                                          destructAt := rows[id].destructAt)]
      ensures r.Some? ==> r.value == rows[id]
    {
      if id !in rows || !Participates(rows[id], user, members) {
        return None;
      }
      var row := rows[id];
      if row.status != Read {
        row := row.(status := Read, readAt := Some(now));
        if row.deliveredAt.None? {
          row := row.(deliveredAt := row.readAt);
        }
        if row.isSelfDestruct && row.destructAfter.Some? && row.destructAfter.value != 0 && row.destructAt.None? {
          row := row.(destructAt := Some(now + row.destructAfter.value));
        }
        rows := rows[id := row];
      }
      return Some(row);
    }

    /** Succeeds only for the sender, at most five minutes after the row was created. */
    method Unsend(id: MsgId, user: UserId, now: int) returns (ok: bool)
      modifies this
      ensures ok <==> id in old(rows) && MayUnsend(old(rows)[id], user, now)
      ensures ok <==> id in old(rows) && old(rows)[id].sender == user && now - old(rows)[id].createdAt <= 300
      ensures rows == if ok then old(rows)[id := UnsentRow(old(rows)[id], now)] else old(rows)
      ensures ok ==> rows == old(rows)[id := old(rows)[id].(content := None, mediaKey := None, mediaMime := None,
                                                            deletedForEveryone := true, deletedAt := Some(now))]
    {
      if id !in rows || rows[id].sender != user {
        return false;
      }
      if now - rows[id].createdAt > UNSEND_WINDOW {
        return false;
      }
      rows := rows[id := rows[id].(content := None, mediaKey := None, mediaMime := None,
                                   deletedForEveryone := true, deletedAt := Some(now))];
      return true;
    }
  }
}
