/** One page of a conversation, and what a client sees that walks it backwards. */
module History {
  import opened Common
  import opened Messages
  import opened Ordering

  type Table = map<MsgId, Row>

  const MAX_PAGE: int := 100

  function SentAt(rows: Table): map<MsgId, int> {
    map id | id in rows :: rows[id].createdAt
  }

  /** Sent by one of the two users to the other. */
  predicate Between(row: Row, a: UserId, b: UserId) {
    (row.sender == a && row.recipient == Some(b)) || (row.sender == b && row.recipient == Some(a))
  }

  function Visible(rows: Table, me: UserId, peer: UserId): set<MsgId> {
    set id | id in rows && Between(rows[id], me, peer) && !rows[id].destructed
  }

  function Older(rows: Table, ids: set<MsgId>, before: Option<int>): set<MsgId> {
    set id | id in ids && id in rows && (before.None? || rows[id].createdAt < before.value)
  }

  /** A page in chronological order: the newest visible messages before the mark. */
  ghost predicate IsPage(rows: Table, me: UserId, peer: UserId, before: Option<int>, limit: nat, page: seq<MsgId>) {
    && Distinct(page)
    && Rising(SentAt(rows), page)
    && IsNewest(SentAt(rows), Older(rows, Visible(rows, me, peer), before), limit, page)
  }

  /** What a user asks for: a message from one of the two to the other that is not destructed, and
      is older than the mark if there is one. */
  predicate Asked(row: Row, me: UserId, peer: UserId, before: Option<int>) {
    && !row.destructed
    && ((row.sender == me && row.recipient == Some(peer)) || (row.sender == peer && row.recipient == Some(me)))
    && (before.Some? ==> row.createdAt < before.value)
  }

  /** Everything on the page was sent at this time or later. */
  ghost predicate NoNewer(rows: Table, page: seq<MsgId>, at: int) {
    forall j | j in page :: j in rows && at <= rows[j].createdAt
  }

  lemma PageIsAsked(rows: Table, me: UserId, peer: UserId, before: Option<int>, limit: nat, page: seq<MsgId>)
    requires IsPage(rows, me, peer, before, limit, page)
    ensures forall id | id in page :: id in rows && Asked(rows[id], me, peer, before)
    ensures forall id | id in rows && Asked(rows[id], me, peer, before) && id !in page ::
              |page| == limit && NoNewer(rows, page, rows[id].createdAt)
    ensures |page| <= limit
  {
    var older := Older(rows, Visible(rows, me, peer), before);
    forall id | id in rows ensures id in older <==> Asked(rows[id], me, peer, before) {}
    forall id | id in rows && Asked(rows[id], me, peer, before) && id !in page
      ensures |page| == limit && NoNewer(rows, page, rows[id].createdAt)
    {
      LeftOutMeansFull(rows, me, peer, before, limit, page, id);
      forall j | j in page ensures j in rows && rows[id].createdAt <= rows[j].createdAt {
        assert SentAt(rows)[id] <= SentAt(rows)[j];
      }
    }
  }

  /** A page that leaves something out is full. */
  lemma LeftOutMeansFull(rows: Table, me: UserId, peer: UserId, before: Option<int>, limit: nat, page: seq<MsgId>,
                         id: MsgId)
    requires IsPage(rows, me, peer, before, limit, page)
    requires id in Older(rows, Visible(rows, me, peer), before) && id !in page
    ensures |page| == limit
  {
    assert id !in Elements(page);
    DistinctCount(page);
    SizeMono(Elements(page), Older(rows, Visible(rows, me, peer), before));
  }

  class ChatQueries {
    var rows: Table
    var users: set<UserId>

    /** A limit above 100 fails validation, an unknown peer is not found, and the database
        rejects a negative limit. */
    method MessageHistory(me: UserId, peer: UserId, before: Option<int>, limit: int) returns (r: Outcome<seq<MsgId>>)
      ensures r.Refused? <==> limit > MAX_PAGE || peer !in users || limit < 0
      ensures r.Refused? ==> r.status == if limit > MAX_PAGE then 422 else if peer !in users then 404 else 500
      ensures r.Ok? ==> IsPage(rows, me, peer, before, limit, r.value)
      // Only messages between the two, not destructed and older than the mark; of those the
      // newest, oldest first; all of them if the page is not full.
      ensures r.Ok? ==> (forall id | id in r.value :: id in rows && Asked(rows[id], me, peer, before))
      ensures r.Ok? ==> forall id | id in rows && Asked(rows[id], me, peer, before) && id !in r.value ::
                          |r.value| == limit && NoNewer(rows, r.value, rows[id].createdAt)
      ensures r.Ok? ==> |r.value| <= limit && Distinct(r.value) && Rising(SentAt(rows), r.value)
    {
      if limit > MAX_PAGE { return Refused(422); }
      if peer !in users { return Refused(404); }
      if limit < 0 { return Refused(500); }
      var messages := OrderDesc(SentAt(rows), Older(rows, Visible(rows, me, peer), before), limit);
      NewestTurned(SentAt(rows), Older(rows, Visible(rows, me, peer), before), limit, messages);
      messages := Backwards(messages);
      PageIsAsked(rows, me, peer, before, limit, messages);
      return Ok(messages);
    }
  }

  /** Both users see the same pages. */
  lemma PagesAreSymmetric(rows: Table, a: UserId, b: UserId, before: Option<int>, limit: nat, page: seq<MsgId>)
    ensures IsPage(rows, a, b, before, limit, page) <==> IsPage(rows, b, a, before, limit, page)
  {
    assert Visible(rows, a, b) == Visible(rows, b, a);
  }

  // ---------------------------------------------------------------- walking backwards

  /** `before` is the oldest time of the page fetched last. */
  function Mark(rows: Table, pages: seq<seq<MsgId>>): Option<int> {
    if pages == [] then None
    else
      var page := pages[|pages| - 1];
      if page == [] || page[0] !in rows then None else Some(rows[page[0]].createdAt)
  }

  /** Page after page, going on only after a non-empty one. */
  ghost predicate IsWalk(rows: Table, me: UserId, peer: UserId, limit: nat, pages: seq<seq<MsgId>>) {
    pages != [] ==>
      var front := pages[..|pages| - 1];
      && (front != [] ==> front[|front| - 1] != [])
      && IsPage(rows, me, peer, Mark(rows, front), limit, pages[|pages| - 1])
      && IsWalk(rows, me, peer, limit, front)
  }

  /** Older pages are put in front. */
  function Joined(pages: seq<seq<MsgId>>): seq<MsgId> {
    if pages == [] then [] else pages[|pages| - 1] + Joined(pages[..|pages| - 1])
  }

  /** The whole conversation in chronological order. */
  ghost predicate IsHistory(rows: Table, me: UserId, peer: UserId, h: seq<MsgId>) {
    Distinct(h) && Rising(SentAt(rows), h) && Elements(h) == Visible(rows, me, peer)
  }

  /** No message is as old as the oldest of a page and yet not on it. */
  ghost predicate CutsNoTie(rows: Table, me: UserId, peer: UserId, page: seq<MsgId>) {
    page != [] && page[0] in rows ==>
      forall id | id in Visible(rows, me, peer) && rows[id].createdAt == rows[page[0]].createdAt :: id in page
  }

  ghost predicate CutNoTies(rows: Table, me: UserId, peer: UserId, pages: seq<seq<MsgId>>) {
    forall i | 0 <= i < |pages| :: CutsNoTie(rows, me, peer, pages[i])
  }

  ghost predicate DistinctTimes(rows: Table, ids: set<MsgId>) {
    forall a, b | a in ids && b in ids && a in rows && b in rows && rows[a].createdAt == rows[b].createdAt :: a == b
  }

  /** What the pages fetched so far hold: nothing older than the mark, and exactly that much of
      the conversation when no page cut a tie. */
  ghost predicate Covers(rows: Table, me: UserId, peer: UserId, pages: seq<seq<MsgId>>) {
    var h := Joined(pages);
    && Distinct(h) && Rising(SentAt(rows), h)
    && (forall id | id in h :: id in Visible(rows, me, peer) && !Unreached(rows, pages, id))
    && (CutNoTies(rows, me, peer, pages) <==>
          forall id | id in Visible(rows, me, peer) && !Unreached(rows, pages, id) :: id in h)
  }

  /** Still to come: older than the mark, or anything before the first page. */
  predicate Unreached(rows: Table, pages: seq<seq<MsgId>>, id: MsgId) {
    id in rows && (pages == [] || (Mark(rows, pages).Some? && rows[id].createdAt < Mark(rows, pages).value))
  }

  lemma PageIsVisible(rows: Table, me: UserId, peer: UserId, limit: nat, pages: seq<seq<MsgId>>)
    requires pages != [] && IsWalk(rows, me, peer, limit, pages)
    ensures forall id | id in pages[|pages| - 1] :: id in Visible(rows, me, peer)
    ensures pages[|pages| - 1] != [] ==> pages[|pages| - 1][0] in rows
  {
    var front, page := pages[..|pages| - 1], pages[|pages| - 1];
    forall id | id in page ensures id in Visible(rows, me, peer) {
      assert id in Older(rows, Visible(rows, me, peer), Mark(rows, front));
    }
    if page != [] { assert page[0] in page; }
  }

  /** A page goes in front of what was fetched before it. */
  lemma PageInFront(rows: Table, me: UserId, peer: UserId, front: seq<seq<MsgId>>, page: seq<MsgId>, limit: nat)
    requires Covers(rows, me, peer, front)
    requires front != [] ==> front[|front| - 1] != [] && front[|front| - 1][0] in rows
    requires IsPage(rows, me, peer, Mark(rows, front), limit, page)
    ensures Distinct(page + Joined(front)) && Rising(SentAt(rows), page + Joined(front))
    ensures forall id | id in page :: id in Visible(rows, me, peer) && Unreached(rows, front, id)
  {
    var h := Joined(front);
    assert front == [] ==> h == [];
    assert forall id | id in page :: id in Older(rows, Visible(rows, me, peer), Mark(rows, front));
    RisingJoin(SentAt(rows), page, h);
  }

  lemma EmptyPageExtends(rows: Table, me: UserId, peer: UserId, limit: nat, front: seq<seq<MsgId>>)
    requires limit >= 1 && Covers(rows, me, peer, front)
    requires front != [] ==> front[|front| - 1] != [] && front[|front| - 1][0] in rows
    requires IsPage(rows, me, peer, Mark(rows, front), limit, [])
    ensures Covers(rows, me, peer, front + [[]])
  {
    var pages := front + [[]];
    assert pages[..|front|] == front;
    assert Joined(pages) == Joined(front);
    var older := Older(rows, Visible(rows, me, peer), Mark(rows, front));
    assert older == {};
    forall id | id in Visible(rows, me, peer) ensures !Unreached(rows, front, id) {
      assert id !in older;
    }
    assert forall i | 0 <= i < |front| :: pages[i] == front[i];
    assert CutNoTies(rows, me, peer, pages) <==> CutNoTies(rows, me, peer, front);
  }

  /** Everything as old as the page's oldest or newer is there, exactly if no tie was cut. */
  lemma PageReaches(rows: Table, me: UserId, peer: UserId, limit: nat, front: seq<seq<MsgId>>, page: seq<MsgId>,
                    id: MsgId)
    requires Covers(rows, me, peer, front) && page != []
    requires front != [] ==> front[|front| - 1] != [] && front[|front| - 1][0] in rows
    requires IsPage(rows, me, peer, Mark(rows, front), limit, page)
    requires CutNoTies(rows, me, peer, front) && CutsNoTie(rows, me, peer, page)
    requires page[0] in rows && id in Visible(rows, me, peer) && rows[id].createdAt >= rows[page[0]].createdAt
    ensures id in page + Joined(front)
  {
    assert page[0] in page;
    if Unreached(rows, front, id) {
      assert id in Older(rows, Visible(rows, me, peer), Mark(rows, front));
    }
  }

  lemma PageExtends(rows: Table, me: UserId, peer: UserId, limit: nat, front: seq<seq<MsgId>>, page: seq<MsgId>)
    requires Covers(rows, me, peer, front) && page != []
    requires front != [] ==> front[|front| - 1] != [] && front[|front| - 1][0] in rows
    requires IsPage(rows, me, peer, Mark(rows, front), limit, page)
    ensures Covers(rows, me, peer, front + [page])
  {
    var pages := front + [page];
    assert pages[..|front|] == front;
    var h := Joined(pages);
    assert h == page + Joined(front);
    PageInFront(rows, me, peer, front, page, limit);
    assert page[0] in page;
    var visible := Visible(rows, me, peer);
    forall id | id in h ensures id in visible && !Unreached(rows, pages, id) {
      assert forall i | 0 <= i < |page| :: SentAt(rows)[page[0]] <= SentAt(rows)[page[i]];
    }
    assert forall i | 0 <= i < |front| :: pages[i] == front[i];
    assert CutNoTies(rows, me, peer, pages) <==>
             CutNoTies(rows, me, peer, front) && CutsNoTie(rows, me, peer, page) by {
      assert pages[|front|] == page;
    }
    if CutNoTies(rows, me, peer, pages) {
      forall id | id in visible && !Unreached(rows, pages, id) ensures id in h {
        PageReaches(rows, me, peer, limit, front, page, id);
      }
    }
    if forall id | id in visible && !Unreached(rows, pages, id) :: id in h {
      forall id | id in visible && rows[id].createdAt == rows[page[0]].createdAt ensures id in page {
        assert id in h && Unreached(rows, front, id);
      }
      forall id | id in visible && !Unreached(rows, front, id) ensures id in Joined(front) {
        assert id in h && id !in page;
      }
    }
  }

  lemma AnyPageExtends(rows: Table, me: UserId, peer: UserId, limit: nat, pages: seq<seq<MsgId>>,
                       front: seq<seq<MsgId>>, page: seq<MsgId>)
    requires pages == front + [page] && limit >= 1 && Covers(rows, me, peer, front)
    requires front != [] ==> front[|front| - 1] != [] && front[|front| - 1][0] in rows
    requires IsPage(rows, me, peer, Mark(rows, front), limit, page)
    ensures Covers(rows, me, peer, pages)
  {
    if page == [] {
      EmptyPageExtends(rows, me, peer, limit, front);
    } else {
      PageExtends(rows, me, peer, limit, front, page);
    }
  }

  lemma NothingFetched(rows: Table, me: UserId, peer: UserId)
    ensures Covers(rows, me, peer, [])
  {}

  lemma FrontAndLast(pages: seq<seq<MsgId>>)
    requires pages != []
    ensures pages == pages[..|pages| - 1] + [pages[|pages| - 1]]
  {}

  lemma {:induction false} WalkCovers(rows: Table, me: UserId, peer: UserId, limit: nat, pages: seq<seq<MsgId>>)
    requires limit >= 1 && IsWalk(rows, me, peer, limit, pages)
    ensures Covers(rows, me, peer, pages)
  {
    if pages == [] {
      NothingFetched(rows, me, peer);
    } else {
      var front := pages[..|pages| - 1];
      WalkCovers(rows, me, peer, limit, front);
      if front != [] { PageIsVisible(rows, me, peer, limit, front); }
      FrontAndLast(pages);
      AnyPageExtends(rows, me, peer, limit, pages, front, pages[|pages| - 1]);
    }
  }

  lemma {:induction false} WalkLength(rows: Table, me: UserId, peer: UserId, limit: nat, pages: seq<seq<MsgId>>)
    requires IsWalk(rows, me, peer, limit, pages)
    ensures |pages| <= |Joined(pages)| + 1
    ensures pages != [] && pages[|pages| - 1] != [] ==> |pages| <= |Joined(pages)|
  {
    if pages != [] { WalkLength(rows, me, peer, limit, pages[..|pages| - 1]); }
  }

  /** Walking back with a positive limit ends within one request per message and one more; the
      joined pages are in order and repeat nothing; and once a page comes back empty they are
      the whole conversation if and only if no page cut a tie of equal times. */
  lemma WalkIsHistory(rows: Table, me: UserId, peer: UserId, limit: nat, pages: seq<seq<MsgId>>)
    requires limit >= 1 && IsWalk(rows, me, peer, limit, pages)
    ensures |pages| <= |Visible(rows, me, peer)| + 1
    ensures Distinct(Joined(pages)) && Rising(SentAt(rows), Joined(pages))
            && Elements(Joined(pages)) <= Visible(rows, me, peer)
    ensures pages != [] && pages[|pages| - 1] == [] ==>
              (IsHistory(rows, me, peer, Joined(pages)) <==> CutNoTies(rows, me, peer, pages))
  {
    WalkCovers(rows, me, peer, limit, pages);
    WalkLength(rows, me, peer, limit, pages);
    var h := Joined(pages);
    DistinctCount(h);
    SizeMono(Elements(h), Visible(rows, me, peer));
    if pages != [] && pages[|pages| - 1] == [] {
      assert forall id | id in Visible(rows, me, peer) :: !Unreached(rows, pages, id);
      assert IsHistory(rows, me, peer, h) <==> forall id | id in Visible(rows, me, peer) :: id in h;
    }
  }

  /** With distinct times every finished walk is the whole conversation. */
  lemma DistinctTimesSuffice(rows: Table, me: UserId, peer: UserId, limit: nat, pages: seq<seq<MsgId>>)
    requires limit >= 1 && IsWalk(rows, me, peer, limit, pages)
    requires pages != [] && pages[|pages| - 1] == []
    requires DistinctTimes(rows, Visible(rows, me, peer))
    ensures IsHistory(rows, me, peer, Joined(pages))
  {
    WalkIsHistory(rows, me, peer, limit, pages);
    PagesAreVisible(rows, me, peer, limit, pages);
    assert CutNoTies(rows, me, peer, pages);
  }

  lemma {:induction false} PagesAreVisible(rows: Table, me: UserId, peer: UserId, limit: nat, pages: seq<seq<MsgId>>)
    requires IsWalk(rows, me, peer, limit, pages)
    ensures forall i | 0 <= i < |pages| && pages[i] != [] ::
              pages[i][0] in pages[i] && pages[i][0] in Visible(rows, me, peer)
  {
    if pages != [] {
      PagesAreVisible(rows, me, peer, limit, pages[..|pages| - 1]);
      PageIsVisible(rows, me, peer, limit, pages);
    }
  }

  /** Without distinct times a message can be lost: two sent at the same time, one a page. */
  lemma TieIsLost(rows: Table, me: UserId, peer: UserId, a: MsgId, b: MsgId)
    requires me != peer && a != b && Visible(rows, me, peer) == {a, b} && rows[a].createdAt == rows[b].createdAt
    ensures IsWalk(rows, me, peer, 1, [[a], []]) && b !in Joined([[a], []])
  {
    var first, both := [[a]], [[a], []];
    assert first[..|first| - 1] == [] && both[..|both| - 1] == first;
    assert Older(rows, Visible(rows, me, peer), None) == {a, b};
    assert IsWalk(rows, me, peer, 1, []);
    assert IsPage(rows, me, peer, Mark(rows, []), 1, [a]);
    assert IsWalk(rows, me, peer, 1, first);
    assert Older(rows, Visible(rows, me, peer), Mark(rows, first)) == {};
    assert IsPage(rows, me, peer, Mark(rows, first), 1, []);
    assert Joined([]) == [] && first[|first| - 1] == [a];
    assert Joined(first) == [a] + Joined([]);
    assert both[|both| - 1] == [] && both[..|both| - 1] == first;
    assert Joined(both) == [] + Joined(first);
  }
}
