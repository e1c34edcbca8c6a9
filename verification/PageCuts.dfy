/** When a walk through the history is complete, told from the table and the page size alone. */
module PageCuts {
  import opened Common
  import opened Messages
  import opened History

  /** The visible messages strictly newer than this one, and those at least as new. */
  function Newer(rows: Table, ids: set<MsgId>, at: int): set<MsgId> {
    set id | id in ids && id in rows && rows[id].createdAt > at
  }

  function AtLeast(rows: Table, ids: set<MsgId>, at: int): set<MsgId> {
    set id | id in ids && id in rows && rows[id].createdAt >= at
  }

  /** The page that the message with `n` messages before it would be on. */
  function PageNumber(limit: nat, n: nat): nat
    requires limit >= 1
  {
    if n < limit then 0 else PageNumber(limit, n - limit) + 1
  }

  /** Counting from the newest, the first and the last of those sent at this message's time
      are on different pages. */
  predicate Straddles(rows: Table, ids: set<MsgId>, limit: nat, id: MsgId)
    requires limit >= 1
  {
    id in rows && AtLeast(rows, ids, rows[id].createdAt) != {}
    && PageNumber(limit, |Newer(rows, ids, rows[id].createdAt)|) !=
       PageNumber(limit, |AtLeast(rows, ids, rows[id].createdAt)| - 1)
  }

  /** No group of equal times reaches over a multiple of the limit. */
  predicate NoTieStraddles(rows: Table, me: UserId, peer: UserId, limit: nat)
    requires limit >= 1
  {
    forall id | id in Visible(rows, me, peer) :: !Straddles(rows, Visible(rows, me, peer), limit, id)
  }

  lemma {:induction false} PageStarts(limit: nat, n: nat, k: nat)
    requires limit >= 1
    ensures Times(limit, k) <= n <==> k <= PageNumber(limit, n)
  {
    if k == 0 {
    } else if n < limit {
      TimesMono(limit, 1, k);
      assert Times(limit, 1) == Times(limit, 0) + limit;
    } else {
      PageStarts(limit, n - limit, k - 1);
    }
  }

  lemma PageNumberIsQuotient(limit: nat, n: nat)
    requires limit >= 1
    ensures PageNumber(limit, n) == n / limit
  {
    var q := n / limit;
    TimesIsProduct(limit, q);
    TimesIsProduct(limit, q + 1);
    assert q * limit + n % limit == n && (q + 1) * limit == q * limit + limit;
    PageStarts(limit, n, q);
    PageStarts(limit, n, q + 1);
  }

  lemma SamePage(limit: nat, m: nat, n: nat, k: nat)
    requires limit >= 1 && Times(limit, k) <= m < n <= Times(limit, k) + limit
    ensures PageNumber(limit, m) == PageNumber(limit, n - 1)
  {
    PageStarts(limit, m, k);
    PageStarts(limit, m, k + 1);
    PageStarts(limit, n - 1, k);
    PageStarts(limit, n - 1, k + 1);
  }

  lemma OtherPage(limit: nat, m: nat, n: nat, k: nat)
    requires limit >= 1 && Times(limit, k) <= m < Times(limit, k) + limit < n
    ensures PageNumber(limit, m) != PageNumber(limit, n - 1)
  {
    PageStarts(limit, m, k + 1);
    PageStarts(limit, n - 1, k + 1);
  }

  lemma StraddlesBySize(rows: Table, ids: set<MsgId>, limit: nat, id: MsgId, k: nat)
    requires limit >= 1 && id in rows
    requires Times(limit, k) <= |Newer(rows, ids, rows[id].createdAt)| < Times(limit, k) + limit
    requires Times(limit, k) + limit < |AtLeast(rows, ids, rows[id].createdAt)|
    ensures Straddles(rows, ids, limit, id)
  {
    OtherPage(limit, |Newer(rows, ids, rows[id].createdAt)|, |AtLeast(rows, ids, rows[id].createdAt)|, k);
  }

  lemma WithinBySize(rows: Table, ids: set<MsgId>, limit: nat, id: MsgId, k: nat)
    requires limit >= 1 && id in rows
    requires Times(limit, k) <= |Newer(rows, ids, rows[id].createdAt)|
    requires |Newer(rows, ids, rows[id].createdAt)| < |AtLeast(rows, ids, rows[id].createdAt)|
    requires |AtLeast(rows, ids, rows[id].createdAt)| <= Times(limit, k) + limit
    ensures !Straddles(rows, ids, limit, id)
  {
    SamePage(limit, |Newer(rows, ids, rows[id].createdAt)|, |AtLeast(rows, ids, rows[id].createdAt)|, k);
  }

  ghost predicate Full(pages: seq<seq<MsgId>>, limit: nat) {
    forall i | 0 <= i < |pages| :: |pages[i]| == limit
  }

  lemma {:induction false} FullLength(pages: seq<seq<MsgId>>, limit: nat)
    requires Full(pages, limit)
    ensures |Joined(pages)| == Times(limit, |pages|)
  {
    if pages != [] { FullLength(pages[..|pages| - 1], limit); }
  }

  /** A page followed by a non-empty one is full. */
  lemma {:induction false} NextMeansFull(rows: Table, me: UserId, peer: UserId, limit: nat, pages: seq<seq<MsgId>>)
    requires limit >= 1 && IsWalk(rows, me, peer, limit, pages) && pages != [] && pages[|pages| - 1] != []
    ensures Full(pages[..|pages| - 1], limit)
  {
    var front := pages[..|pages| - 1];
    if front != [] {
      NextMeansFull(rows, me, peer, limit, front);
      LastIsFull(rows, me, peer, limit, front, pages[|pages| - 1]);
      var earlier := front[..|front| - 1];
      assert forall i | 0 <= i < |earlier| :: front[i] == earlier[i];
    }
  }

  lemma LastIsFull(rows: Table, me: UserId, peer: UserId, limit: nat, front: seq<seq<MsgId>>, page: seq<MsgId>)
    requires IsWalk(rows, me, peer, limit, front) && front != [] && front[|front| - 1] != []
    requires page != [] && IsPage(rows, me, peer, Mark(rows, front), limit, page)
    ensures |front[|front| - 1]| == limit
  {
    var earlier, last := front[..|front| - 1], front[|front| - 1];
    PageIsVisible(rows, me, peer, limit, front);
    if earlier != [] { PageIsVisible(rows, me, peer, limit, earlier); }
    NextIsOlder(rows, me, peer, limit, earlier, last, page);
    LeftOutMeansFull(rows, me, peer, Mark(rows, earlier), limit, last, page[0]);
  }

  lemma NextIsOlder(rows: Table, me: UserId, peer: UserId, limit: nat, earlier: seq<seq<MsgId>>, last: seq<MsgId>,
                    page: seq<MsgId>)
    requires last != [] && last[0] in rows && page != []
    requires earlier != [] ==> earlier[|earlier| - 1] != [] && earlier[|earlier| - 1][0] in rows
    requires IsPage(rows, me, peer, Mark(rows, earlier), limit, last)
    requires IsPage(rows, me, peer, Some(rows[last[0]].createdAt), limit, page)
    ensures page[0] in Older(rows, Visible(rows, me, peer), Mark(rows, earlier)) && page[0] !in last
  {
    assert page[0] in page && last[0] in last;
    assert page[0] in Older(rows, Visible(rows, me, peer), Some(rows[last[0]].createdAt));
    assert last[0] in Older(rows, Visible(rows, me, peer), Mark(rows, earlier));
    assert forall i | 0 <= i < |last| :: SentAt(rows)[last[0]] <= SentAt(rows)[last[i]];
  }

  lemma SizeOfBoth(a: seq<MsgId>, b: seq<MsgId>)
    requires Distinct(a + b)
    ensures |Elements(a)| == |a| && |Elements(b)| == |b| && |Elements(a) + Elements(b)| == |a| + |b|
  {
    assert forall i | 0 <= i < |a| :: (a + b)[i] == a[i];
    assert forall i | 0 <= i < |b| :: (a + b)[|a| + i] == b[i];
    DistinctCount(a);
    DistinctCount(b);
    DistinctCount(a + b);
    assert Elements(a + b) == Elements(a) + Elements(b);
  }

  /** A tie cut by a page reaches over a multiple of the limit: k full pages and part of the
      next are newer, and the tie goes on behind it. */
  lemma CutTieStraddles(rows: Table, me: UserId, peer: UserId, limit: nat, front: seq<seq<MsgId>>, page: seq<MsgId>,
                        id: MsgId)
    requires limit >= 1 && Covers(rows, me, peer, front) && CutNoTies(rows, me, peer, front) && Full(front, limit)
    requires front != [] ==> front[|front| - 1] != [] && front[|front| - 1][0] in rows
    requires IsPage(rows, me, peer, Mark(rows, front), limit, page) && page != [] && page[0] in rows
    requires id in Visible(rows, me, peer) && rows[id].createdAt == rows[page[0]].createdAt && id !in page
    ensures Straddles(rows, Visible(rows, me, peer), limit, id)
  {
    var ids := Visible(rows, me, peer);
    var at := rows[id].createdAt;
    FullLength(front, limit);
    PageInFront(rows, me, peer, front, page, limit);
    assert page[0] in page && Unreached(rows, front, id);
    LeftOutMeansFull(rows, me, peer, Mark(rows, front), limit, page, id);
    SizeOfBoth(page, Joined(front));
    NewerIsReached(rows, me, peer, limit, front, page);
    Squeeze(Elements(Joined(front)), Newer(rows, ids, at), Elements(page) + Elements(Joined(front)), page[0]);
    TieIsBehind(rows, me, peer, front, page, id, limit);
    StraddlesBySize(rows, ids, limit, id, |front|);
  }

  lemma Squeeze(low: set<MsgId>, s: set<MsgId>, high: set<MsgId>, out: MsgId)
    requires low <= s <= high - {out} && out in high
    ensures |low| <= |s| < |high|
  {
    SizeMono(low, s);
    SizeMono(s, high - {out});
  }

  lemma TieIsBehind(rows: Table, me: UserId, peer: UserId, front: seq<seq<MsgId>>, page: seq<MsgId>, id: MsgId,
                    limit: nat)
    requires Covers(rows, me, peer, front) && IsPage(rows, me, peer, Mark(rows, front), limit, page) && page != []
             && page[0] in rows
    requires front != [] ==> front[|front| - 1] != [] && front[|front| - 1][0] in rows
    requires id in Visible(rows, me, peer) && rows[id].createdAt == rows[page[0]].createdAt && id !in page
             && Unreached(rows, front, id)
    requires |Elements(page) + Elements(Joined(front))| == |page| + |Joined(front)|
    ensures |AtLeast(rows, Visible(rows, me, peer), rows[id].createdAt)| > |page| + |Joined(front)|
  {
    var atLeast := AtLeast(rows, Visible(rows, me, peer), rows[id].createdAt);
    PageIsAtLeast(rows, me, peer, Mark(rows, front), limit, page);
    forall j | j in Elements(Joined(front)) ensures j in atLeast - {id} {
      assert !Unreached(rows, front, j);
    }
    assert Elements(page) + Elements(Joined(front)) <= atLeast - {id};
    SizeMono(Elements(page) + Elements(Joined(front)), atLeast - {id});
  }

  lemma PageIsAtLeast(rows: Table, me: UserId, peer: UserId, before: Option<int>, limit: nat, page: seq<MsgId>)
    requires IsPage(rows, me, peer, before, limit, page) && page != [] && page[0] in rows
    ensures Elements(page) <= AtLeast(rows, Visible(rows, me, peer), rows[page[0]].createdAt)
  {
    forall j | j in Elements(page) ensures j in AtLeast(rows, Visible(rows, me, peer), rows[page[0]].createdAt) {
      assert j in Older(rows, Visible(rows, me, peer), before);
      var i :| 0 <= i < |page| && page[i] == j;
      assert SentAt(rows)[page[0]] <= SentAt(rows)[page[i]];
    }
  }

  /** What is newer than the oldest of a page has been fetched before or is on the page. */
  lemma NewerIsReached(rows: Table, me: UserId, peer: UserId, limit: nat, front: seq<seq<MsgId>>, page: seq<MsgId>)
    requires Covers(rows, me, peer, front) && CutNoTies(rows, me, peer, front)
    requires front != [] ==> front[|front| - 1] != [] && front[|front| - 1][0] in rows
    requires IsPage(rows, me, peer, Mark(rows, front), limit, page) && page != [] && page[0] in rows
    ensures Elements(Joined(front)) <= Newer(rows, Visible(rows, me, peer), rows[page[0]].createdAt)
    ensures Newer(rows, Visible(rows, me, peer), rows[page[0]].createdAt) <=
            Elements(page) + Elements(Joined(front)) - {page[0]}
  {
    var ids := Visible(rows, me, peer);
    var newer := Newer(rows, ids, rows[page[0]].createdAt);
    assert page[0] in page && page[0] in Older(rows, ids, Mark(rows, front));
    forall id | id in Elements(Joined(front)) ensures id in newer {
      assert !Unreached(rows, front, id);
    }
    forall id | id in newer ensures id in Elements(page) + Elements(Joined(front)) {
      if Unreached(rows, front, id) {
        assert id in Older(rows, ids, Mark(rows, front));
      }
    }
    assert page[0] !in newer;
  }

  lemma NoStraddleOnPage(rows: Table, me: UserId, peer: UserId, limit: nat, front: seq<seq<MsgId>>, page: seq<MsgId>)
    requires limit >= 1 && Covers(rows, me, peer, front) && CutNoTies(rows, me, peer, front)
    requires page != [] ==> Full(front, limit) && page[0] in rows
    requires front != [] ==> front[|front| - 1] != [] && front[|front| - 1][0] in rows
    requires IsPage(rows, me, peer, Mark(rows, front), limit, page) && NoTieStraddles(rows, me, peer, limit)
    ensures CutsNoTie(rows, me, peer, page)
  {
    if page != [] && !CutsNoTie(rows, me, peer, page) {
      var id :| id in Visible(rows, me, peer) && rows[id].createdAt == rows[page[0]].createdAt && id !in page;
      CutTieStraddles(rows, me, peer, limit, front, page, id);
    }
  }

  lemma {:induction false} NoStraddleNoCut(rows: Table, me: UserId, peer: UserId, limit: nat, pages: seq<seq<MsgId>>)
    requires limit >= 1 && IsWalk(rows, me, peer, limit, pages) && NoTieStraddles(rows, me, peer, limit)
    ensures CutNoTies(rows, me, peer, pages)
  {
    if pages != [] {
      var front := pages[..|pages| - 1];
      NoStraddleNoCut(rows, me, peer, limit, front);
      WalkCovers(rows, me, peer, limit, front);
      if front != [] { PageIsVisible(rows, me, peer, limit, front); }
      PageIsVisible(rows, me, peer, limit, pages);
      if pages[|pages| - 1] != [] { NextMeansFull(rows, me, peer, limit, pages); }
      NoStraddleOnPage(rows, me, peer, limit, front, pages[|pages| - 1]);
      CutSnoc(rows, me, peer, pages);
    }
  }

  lemma CutSnoc(rows: Table, me: UserId, peer: UserId, pages: seq<seq<MsgId>>)
    requires pages != []
    ensures CutNoTies(rows, me, peer, pages) <==>
              CutNoTies(rows, me, peer, pages[..|pages| - 1]) && CutsNoTie(rows, me, peer, pages[|pages| - 1])
  {
    var front := pages[..|pages| - 1];
    assert forall i | 0 <= i < |front| :: front[i] == pages[i];
  }

  /** Without a cut, what has been fetched straddles nothing. */
  lemma {:induction false} NoCutNoStraddle(rows: Table, me: UserId, peer: UserId, limit: nat, pages: seq<seq<MsgId>>,
                                           id: MsgId)
    requires limit >= 1 && IsWalk(rows, me, peer, limit, pages) && CutNoTies(rows, me, peer, pages)
    requires pages != [] && pages[|pages| - 1] != []
    requires id in Visible(rows, me, peer) && !Unreached(rows, pages, id)
    ensures !Straddles(rows, Visible(rows, me, peer), limit, id)
  {
    var front, page := pages[..|pages| - 1], pages[|pages| - 1];
    CutSnoc(rows, me, peer, pages);
    if front != [] && !Unreached(rows, front, id) {
      NoCutNoStraddle(rows, me, peer, limit, front, id);
    } else {
      WalkCovers(rows, me, peer, limit, front);
      WalkCovers(rows, me, peer, limit, pages);
      if front != [] { PageIsVisible(rows, me, peer, limit, front); }
      PageIsVisible(rows, me, peer, limit, pages);
      NextMeansFull(rows, me, peer, limit, pages);
      OnThisPage(rows, me, peer, limit, front, page, pages, id);
    }
  }

  lemma OnThisPage(rows: Table, me: UserId, peer: UserId, limit: nat, front: seq<seq<MsgId>>, page: seq<MsgId>,
                   pages: seq<seq<MsgId>>, id: MsgId)
    requires limit >= 1 && pages != [] && front == pages[..|pages| - 1] && page == pages[|pages| - 1]
    requires Covers(rows, me, peer, front) && Covers(rows, me, peer, pages) && CutNoTies(rows, me, peer, pages)
    requires front != [] ==> front[|front| - 1] != [] && front[|front| - 1][0] in rows
    requires Full(front, limit) && |page| <= limit
    requires id in Visible(rows, me, peer) && Unreached(rows, front, id) && !Unreached(rows, pages, id)
    ensures !Straddles(rows, Visible(rows, me, peer), limit, id)
  {
    var ids := Visible(rows, me, peer);
    var at := rows[id].createdAt;
    ReachedIsNewer(rows, me, peer, front, id);
    AtLeastIsReached(rows, me, peer, pages, id);
    FullLength(front, limit);
    JoinedSizes(page, front, pages);
    SizeMono(Elements(Joined(front)), Newer(rows, ids, at));
    SizeMono(AtLeast(rows, ids, at), Elements(Joined(pages)));
    Squeeze({}, Newer(rows, ids, at), AtLeast(rows, ids, at), id);
    WithinBySize(rows, ids, limit, id, |front|);
  }

  lemma JoinedSizes(page: seq<MsgId>, front: seq<seq<MsgId>>, pages: seq<seq<MsgId>>)
    requires pages != [] && front == pages[..|pages| - 1] && page == pages[|pages| - 1] && Distinct(Joined(pages))
    ensures |Elements(Joined(front))| == |Joined(front)| && |Elements(Joined(pages))| == |page| + |Joined(front)|
  {
    SizeOfBoth(page, Joined(front));
    assert Elements(page + Joined(front)) == Elements(page) + Elements(Joined(front));
  }

  lemma ReachedIsNewer(rows: Table, me: UserId, peer: UserId, front: seq<seq<MsgId>>, id: MsgId)
    requires Covers(rows, me, peer, front) && id in rows && Unreached(rows, front, id)
    requires front != [] ==> front[|front| - 1] != [] && front[|front| - 1][0] in rows
    ensures Elements(Joined(front)) <= Newer(rows, Visible(rows, me, peer), rows[id].createdAt)
  {
    forall j | j in Elements(Joined(front)) ensures j in Newer(rows, Visible(rows, me, peer), rows[id].createdAt) {
      assert !Unreached(rows, front, j);
    }
  }

  lemma AtLeastIsReached(rows: Table, me: UserId, peer: UserId, pages: seq<seq<MsgId>>, id: MsgId)
    requires Covers(rows, me, peer, pages) && CutNoTies(rows, me, peer, pages) && id in rows
             && !Unreached(rows, pages, id)
    ensures AtLeast(rows, Visible(rows, me, peer), rows[id].createdAt) <= Elements(Joined(pages))
  {
    forall j | j in AtLeast(rows, Visible(rows, me, peer), rows[id].createdAt) ensures j in Elements(Joined(pages)) {
      assert !Unreached(rows, pages, j);
    }
  }

  /** Whatever order the database picks for equal times: every finished walk is the whole
      conversation if and only if no tie reaches over a multiple of the limit. */
  lemma WalkIsHistoryExactly(rows: Table, me: UserId, peer: UserId, limit: nat, pages: seq<seq<MsgId>>)
    requires limit >= 1 && IsWalk(rows, me, peer, limit, pages)
    requires pages != [] && pages[|pages| - 1] == []
    ensures IsHistory(rows, me, peer, Joined(pages)) <==> NoTieStraddles(rows, me, peer, limit)
  {
    WalkIsHistory(rows, me, peer, limit, pages);
    if NoTieStraddles(rows, me, peer, limit) { NoStraddleNoCut(rows, me, peer, limit, pages); }
    if CutNoTies(rows, me, peer, pages) {
      var front := pages[..|pages| - 1];
      CutSnoc(rows, me, peer, pages);
      forall id | id in Visible(rows, me, peer)
        ensures !Straddles(rows, Visible(rows, me, peer), limit, id)
      {
        assert Older(rows, Visible(rows, me, peer), Mark(rows, front)) == {};
        assert id !in Older(rows, Visible(rows, me, peer), Mark(rows, front));
        if front != [] { PageIsVisible(rows, me, peer, limit, front); }
        NoCutNoStraddle(rows, me, peer, limit, front, id);
      }
    }
  }
}
