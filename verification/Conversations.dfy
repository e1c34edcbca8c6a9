/** The conversation list, and its agreement with the history of each peer. */
module Conversations {
  import opened Common
  import opened Messages
  import opened Ordering
  import opened History

  const PREVIEW_LENGTH := 20

  datatype Conversation = Conversation(peer: UserId, name: string, isOnline: bool,
                                       preview: Option<string>, lastAt: int, unread: nat)

  /** Exactly one of recipient and group, and both parties are users. */
  ghost predicate Constrained(rows: Table, users: map<UserId, string>) {
    forall id | id in rows ::
      && (rows[id].recipient.Some? <==> rows[id].group.None?)
      && rows[id].sender in users
      && (rows[id].recipient.Some? ==> rows[id].recipient.value in users)
  }

  function PeerOf(row: Row, me: UserId): Option<UserId> {
    if row.sender != me then Some(row.sender) else row.recipient
  }

  /** The direct messages grouped under one peer. */
  function Group(rows: Table, me: UserId, peer: UserId): set<MsgId> {
    set id | id in rows && (rows[id].sender == me || rows[id].recipient == Some(me))
             && rows[id].group.None? && !rows[id].destructed && PeerOf(rows[id], me) == Some(peer)
  }

  function Peers(rows: Table, users: map<UserId, string>, me: UserId): set<UserId> {
    set peer | peer in users && Group(rows, me, peer) != {}
  }

  function Unread(rows: Table, me: UserId, peer: UserId): set<MsgId> {
    set id | id in rows && rows[id].sender == peer && rows[id].recipient == Some(me)
             && rows[id].status != Read && !rows[id].destructed
  }

  /** The first characters of the text, or of the bracketed type of a message without one, and
      nothing of an unsent message. */
  predicate IsPreview(row: Row, preview: Option<string>) {
    if row.deletedForEveryone then preview.None?
    else
      preview.Some? &&
      var text := if row.content.Some? && row.content.value != "" then row.content.value
                  else "[" + row.messageType + "]";
      && preview.value <= text && |preview.value| <= 20
      && (|preview.value| < 20 ==> preview.value == text)
  }

  function Preview(row: Row): (preview: Option<string>)
    ensures IsPreview(row, preview)
  {
    if row.deletedForEveryone then None
    else
      var text := if row.content.None? || row.content == Some("") then "[" + row.messageType + "]"
      else row.content.value;
      Some(if |text| <= PREVIEW_LENGTH then text else text[..PREVIEW_LENGTH])
  }

  ghost predicate IsLatest(rows: Table, ids: set<MsgId>, id: MsgId) {
    id in ids && id in rows
    && forall other | other in ids && other in rows :: rows[other].createdAt <= rows[id].createdAt
  }

  ghost predicate IsLastAt(rows: Table, me: UserId, peer: UserId, at: int) {
    exists id :: IsLatest(rows, Group(rows, me, peer), id) && rows[id].createdAt == at
  }

  ghost predicate RowOk(rows: Table, users: map<UserId, string>, online: set<UserId>, me: UserId, c: Conversation) {
    && c.peer in users && c.name == users[c.peer]
    && c.isOnline == (c.peer in online)
    && IsLastAt(rows, me, c.peer, c.lastAt)
    && c.unread == |Unread(rows, me, c.peer)|
    && (if Visible(rows, me, c.peer) == {} then c.preview == None
        else exists id :: IsLatest(rows, Visible(rows, me, c.peer), id) && IsPreview(rows[id], c.preview))
  }

  /** One row per peer, newest first. */
  ghost predicate IsList(rows: Table, users: map<UserId, string>, online: set<UserId>, me: UserId,
                         out: seq<Conversation>) {
    && (forall i | 0 <= i < |out| :: RowOk(rows, users, online, me, out[i]))
    && (forall i, j | 0 <= i < j < |out| :: out[i].peer != out[j].peer && out[i].lastAt >= out[j].lastAt)
    && forall peer :: peer in Peers(rows, users, me) <==> exists i :: 0 <= i < |out| && out[i].peer == peer
  }

  ghost predicate AreLatest(rows: Table, me: UserId, lastAt: map<UserId, int>) {
    forall peer | peer in lastAt :: IsLastAt(rows, me, peer, lastAt[peer])
  }

  class ConversationQueries {
    var rows: Table
    var users: map<UserId, string>
    var online: set<UserId>

    /** The newest of some rows, as `ORDER BY created_at DESC LIMIT 1` finds it. */
    method Newest(ids: set<MsgId>) returns (newest: Option<MsgId>)
      requires forall id | id in ids :: id in rows
      ensures newest.None? <==> ids == {}
      ensures newest.Some? ==> IsLatest(rows, ids, newest.value)
    {
      var top := OrderDesc(SentAt(rows), ids, 1);
      if top == [] { return None; }
      assert top[0] in top;
      assert forall id | id in ids :: id in top ==> id == top[0];
      return Some(top[0]);
    }

    /** The grouped subquery: the newest time of every peer who is a user. */
    method LastTimes(me: UserId) returns (lastAt: map<UserId, int>)
      ensures lastAt.Keys == Peers(rows, users, me) && AreLatest(rows, me, lastAt)
    {
      lastAt := map[];
      var left := Peers(rows, users, me);
      while left != {}
        invariant left <= Peers(rows, users, me) && lastAt.Keys == Peers(rows, users, me) - left
        invariant AreLatest(rows, me, lastAt)
        decreases |left|
      {
        var peer :| peer in left;
        var newest := Newest(Group(rows, me, peer));
        assert IsLastAt(rows, me, peer, rows[newest.value].createdAt);
        lastAt := lastAt[peer := rows[newest.value].createdAt];
        left := left - {peer};
      }
    }

    /** The body of the loop: one row for a peer. */
    method Describe(me: UserId, peer: UserId, at: int) returns (c: Conversation)
      requires peer in users && IsLastAt(rows, me, peer, at)
      ensures c.peer == peer && c.lastAt == at && RowOk(rows, users, online, me, c)
    {
      var lastMsg := Newest(Visible(rows, me, peer));
      var unread := |Unread(rows, me, peer)|;
      var preview := None;
      if lastMsg.Some? && !rows[lastMsg.value].deletedForEveryone {
        preview := Preview(rows[lastMsg.value]);
      }
      c := Conversation(peer, users[peer], peer in online, preview, at, unread);
    }

    method ListConversations(me: UserId) returns (out: seq<Conversation>)
      ensures IsList(rows, users, online, me, out)
    {
      var lastAt := LastTimes(me);
      var peers := OrderDesc(lastAt, lastAt.Keys, |lastAt.Keys|);
      AllChosen(lastAt, peers);
      out := [];
      for i := 0 to |peers|
        invariant |out| == i
        invariant Listed(rows, users, online, me, lastAt, peers, out)
      {
        var c := Describe(me, peers[i], lastAt[peers[i]]);
        ListedSnoc(rows, users, online, me, lastAt, peers, out, c);
        out := out + [c];
      }
      ListedIsList(rows, users, online, me, lastAt, peers, out);
    }
  }

  lemma AllChosen(lastAt: map<UserId, int>, peers: seq<UserId>)
    requires Distinct(peers) && IsNewest(lastAt, lastAt.Keys, |lastAt.Keys|, peers)
    ensures Elements(peers) == lastAt.Keys
    ensures forall i | 0 <= i < |peers| :: peers[i] in lastAt
  {
    DistinctCount(peers);
    assert forall i | 0 <= i < |peers| :: peers[i] in peers;
    SizeMono(Elements(peers), lastAt.Keys);
  }

  ghost predicate Listed(rows: Table, users: map<UserId, string>, online: set<UserId>, me: UserId,
                         lastAt: map<UserId, int>, peers: seq<UserId>, out: seq<Conversation>) {
    && |out| <= |peers|
    && forall k | 0 <= k < |out| ::
         out[k].peer == peers[k] && peers[k] in lastAt && out[k].lastAt == lastAt[peers[k]]
         && RowOk(rows, users, online, me, out[k])
  }

  lemma ListedSnoc(rows: Table, users: map<UserId, string>, online: set<UserId>, me: UserId,
                   lastAt: map<UserId, int>, peers: seq<UserId>, out: seq<Conversation>, c: Conversation)
    requires Listed(rows, users, online, me, lastAt, peers, out) && |out| < |peers|
    requires c.peer == peers[|out|] && c.peer in lastAt && c.lastAt == lastAt[c.peer]
             && RowOk(rows, users, online, me, c)
    ensures Listed(rows, users, online, me, lastAt, peers, out + [c])
  {}

  lemma ListedIsList(rows: Table, users: map<UserId, string>, online: set<UserId>, me: UserId,
                     lastAt: map<UserId, int>, peers: seq<UserId>, out: seq<Conversation>)
    requires Listed(rows, users, online, me, lastAt, peers, out) && |out| == |peers|
    requires Distinct(peers) && Falling(lastAt, peers) && Elements(peers) == Peers(rows, users, me)
    ensures IsList(rows, users, online, me, out)
  {}

  // ---------------------------------------------------------------- agreement with the history

  /** Under the table's constraints the group of a peer is the history with that peer. */
  lemma GroupIsVisible(rows: Table, users: map<UserId, string>, me: UserId, peer: UserId)
    requires Constrained(rows, users)
    ensures Group(rows, me, peer) == Visible(rows, me, peer)
  {}

  predicate IsUnread(rows: Table, peer: UserId, id: MsgId) {
    id in rows && rows[id].sender == peer && rows[id].status != Read
  }

  /** How many items of a history the peer sent and the user has not read. */
  function UnreadItems(rows: Table, peer: UserId, h: seq<MsgId>): nat {
    if h == [] then 0
    else UnreadItems(rows, peer, h[..|h| - 1]) + if IsUnread(rows, peer, h[|h| - 1]) then 1 else 0
  }

  function UnreadOf(rows: Table, peer: UserId, h: seq<MsgId>): set<MsgId> {
    set id | id in h && IsUnread(rows, peer, id)
  }

  lemma UnreadSnoc(rows: Table, peer: UserId, h: seq<MsgId>, id: MsgId)
    requires id !in h
    ensures |UnreadOf(rows, peer, h + [id])| == |UnreadOf(rows, peer, h)| + if IsUnread(rows, peer, id) then 1 else 0
  {
    var extra := if IsUnread(rows, peer, id) then {id} else {};
    assert UnreadOf(rows, peer, h + [id]) == UnreadOf(rows, peer, h) + extra;
  }

  lemma {:induction false} UnreadCounts(rows: Table, peer: UserId, h: seq<MsgId>)
    requires Distinct(h)
    ensures UnreadItems(rows, peer, h) == |UnreadOf(rows, peer, h)|
  {
    if h != [] {
      var n := |h| - 1;
      UnreadCounts(rows, peer, h[..n]);
      UnreadSnoc(rows, peer, h[..n], h[n]);
      assert h == h[..n] + [h[n]];
    }
  }

  /** A peer is listed exactly when the history with them is not empty; the row's time is that
      of the last item of the history, its badge counts the unread items of the history, and
      with distinct times its preview is the last item's. */
  lemma ListAgreesWithHistory(rows: Table, users: map<UserId, string>, online: set<UserId>, me: UserId,
                              out: seq<Conversation>, peer: UserId, h: seq<MsgId>)
    requires Constrained(rows, users) && peer in users
    requires IsList(rows, users, online, me, out) && IsHistory(rows, me, peer, h)
    ensures h != [] <==> exists i :: 0 <= i < |out| && out[i].peer == peer
    ensures forall i | 0 <= i < |out| && out[i].peer == peer ::
              && h != [] && h[|h| - 1] in rows && out[i].lastAt == rows[h[|h| - 1]].createdAt
              && out[i].unread == UnreadItems(rows, peer, h)
              && (DistinctTimes(rows, Elements(h)) ==> IsPreview(rows[h[|h| - 1]], out[i].preview))
  {
    GroupIsVisible(rows, users, me, peer);
    var visible := Visible(rows, me, peer);
    assert h != [] <==> visible != {} by {
      if h != [] { assert h[0] in Elements(h); }
    }
    assert peer in Peers(rows, users, me) <==> h != [];
    forall i | 0 <= i < |out| && out[i].peer == peer
      ensures h != [] && h[|h| - 1] in rows && out[i].lastAt == rows[h[|h| - 1]].createdAt
      ensures out[i].unread == UnreadItems(rows, peer, h)
      ensures DistinctTimes(rows, Elements(h)) ==> IsPreview(rows[h[|h| - 1]], out[i].preview)
    {
      assert RowOk(rows, users, online, me, out[i]);
      LastIsLatest(rows, me, peer, h);
      UnreadCounts(rows, peer, h);
      assert UnreadOf(rows, peer, h) == Unread(rows, me, peer) by {
        forall id ensures id in UnreadOf(rows, peer, h) <==> id in Unread(rows, me, peer) {
          assert id in h <==> id in visible by { assert id in h <==> id in Elements(h); }
        }
      }
    }
  }

  lemma LastIsLatest(rows: Table, me: UserId, peer: UserId, h: seq<MsgId>)
    requires h != [] && IsHistory(rows, me, peer, h)
    ensures IsLatest(rows, Visible(rows, me, peer), h[|h| - 1])
  {}
}
