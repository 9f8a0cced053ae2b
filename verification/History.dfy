/**
 Paging through a conversation's history by time.

 `FetchHistoryByTime` walks pages of rows from the newest down, keeps what falls in a time
 window and stops early at the first row older than the window. The plain request it answers
 is `Newest`: the newest `limit` messages of the window. The two agree exactly when no message
 of that answer lies behind a too-old row or below the 50-page cap, which holds for every
 history whose times never go back and which is short enough.
 */
module History {
  import opened Wrappers
  import opened Bytes
  import opened MsgDb

  datatype Payload = Payload(createdAt: int, body: string)

  datatype Chat = Chat(mid: I64, payload: Payload)

  /** How stored bytes read as a message, if they do. */
  type Decoder = Key -> Option<Payload>

  const MAX_PAGES: nat := 50
  const MIN_PAGE: nat := 200

  // ---- rows and pages ----

  predicate Ascending(rows: seq<Message>) {
    forall i, j :: 0 <= i < j < |rows| ==> rows[i].0 < rows[j].0
  }

  /** How many rows lie below a cursor. */
  function Below(rows: seq<Message>, cursor: Option<I64>): (n: nat)
    ensures n <= |rows|
    ensures Ascending(rows) ==>
      forall i :: 0 <= i < |rows| ==> (i < n <==> cursor.None? || cursor.value < 0 || rows[i].0 < cursor.value)
  {
    if rows == [] then 0
    else
      var n := Below(rows[..|rows| - 1], cursor);
      var last := rows[|rows| - 1].0;
      if cursor.None? || cursor.value < 0 || last < cursor.value then |rows| else n
  }

  function PageStart(n: nat, size: nat): (lo: nat)
    ensures lo <= n && n - lo <= size
  {
    if n <= size then 0 else n - size
  }

  /** The page a history call is served: the last `size` rows below the cursor. */
  function Page(rows: seq<Message>, cursor: Option<I64>, size: nat): seq<Message> {
    rows[PageStart(Below(rows, cursor), size)..Below(rows, cursor)]
  }

  /** `rows` lists a conversation: every message of it, in id order. */
  ghost predicate Lists(rows: seq<Message>, feed: map<I64, Key>) {
    && Ascending(rows)
    && (forall i :: 0 <= i < |rows| ==> rows[i].0 in feed && rows[i].1 == feed[rows[i].0])
    && (forall m :: m in feed ==> Has(rows, m))
  }

  /** Each message of a prefix of a listing is on the prefix's last page, or older than a full page. */
  lemma OnPageOrOlder(rows: seq<Message>, feed: map<I64, Key>, n: nat, size: nat, m: I64)
    requires Lists(rows, feed) && n <= |rows| && m in feed
    requires exists i :: 0 <= i < n && rows[i].0 == m
    ensures var page := rows[PageStart(n, size)..n];
      Has(page, m) || (|page| == size && forall i :: 0 <= i < |page| ==> m < page[i].0)
  {
    hide Lists;
    assert Ascending(rows) by { ListsAscend(rows, feed); }
    var lo := PageStart(n, size);
    var page := rows[lo..n];
    var j :| 0 <= j < n && rows[j].0 == m;
    if lo <= j {
      assert page[j - lo].0 == m;
    } else {
      forall i | 0 <= i < |page| ensures m < page[i].0 {
        assert page[i] == rows[lo + i];
      }
    }
  }

  lemma ListsAscend(rows: seq<Message>, feed: map<I64, Key>)
    requires Lists(rows, feed)
    ensures Ascending(rows) && forall i :: 0 <= i < |rows| ==> rows[i].0 in feed && rows[i].1 == feed[rows[i].0]
  {
  }

  lemma ListedAt(rows: seq<Message>, feed: map<I64, Key>, m: I64) returns (i: nat)
    requires Lists(rows, feed) && m in feed
    ensures i < |rows| && rows[i].0 == m
  {
    assert Has(rows, m);
    i :| 0 <= i < |rows| && rows[i].0 == m;
  }

  /** The last rows of a prefix of a listing are the newest of that prefix. */
  lemma SuffixIsNewest(rows: seq<Message>, feed: map<I64, Key>, within: set<I64>, n: nat, size: nat)
    requires Lists(rows, feed) && n <= |rows|
    requires forall i :: 0 <= i < |rows| ==> (rows[i].0 in within <==> i < n)
    ensures IsNewest(rows[PageStart(n, size)..n], feed, within, size)
  {
    hide Lists, Has;
    ListsAscend(rows, feed);
    var lo := PageStart(n, size);
    var page := rows[lo..n];
    assert forall i :: 0 <= i < |page| ==> page[i] == rows[lo + i];
    forall m | m in feed && m in within
      ensures Has(page, m) || (|page| == size && forall i :: 0 <= i < |page| ==> m < page[i].0)
    {
      var i := ListedAt(rows, feed, m);
      OnPageOrOlder(rows, feed, n, size, m);
    }
  }

  /** The store serves exactly this page, whichever of its fetches is asked. */
  lemma StoreServesPages(rows: seq<Message>, feed: map<I64, Key>, cursor: Option<I64>, size: nat, served: seq<Message>)
    requires Lists(rows, feed) && IsNewest(served, feed, Before(feed, cursor), size)
    ensures served == Page(rows, cursor, size)
  {
    hide Below, IsNewest;
    SuffixIsNewest(rows, feed, Before(feed, cursor), Below(rows, cursor), size);
    NewestIsUnique(served, Page(rows, cursor, size), feed, Before(feed, cursor), size);
  }

  // ---- decoding ----

  /** `decode_messages`: rows that do not read as a message are dropped. */
  function DecodeMessages(rows: seq<Message>, decode: Decoder): seq<Chat> {
    if rows == [] then []
    else
      var (mid, data) := rows[|rows| - 1];
      DecodeMessages(rows[..|rows| - 1], decode) +
      match decode(data) { case None => [] case Some(p) => [Chat(mid, p)] }
  }

  predicate Decodable(rows: seq<Message>, decode: Decoder) {
    forall i :: 0 <= i < |rows| ==> decode(rows[i].1).Some?
  }

  lemma {:induction false} DecodeAll(rows: seq<Message>, decode: Decoder)
    requires Decodable(rows, decode)
    ensures |DecodeMessages(rows, decode)| == |rows|
    ensures forall i :: 0 <= i < |rows| ==> DecodeMessages(rows, decode)[i] == Chat(rows[i].0, decode(rows[i].1).value)
  {
    if rows != [] {
      DecodeAll(rows[..|rows| - 1], decode);
    }
  }

  lemma {:induction false} DecodeConcat(x: seq<Message>, y: seq<Message>, decode: Decoder)
    ensures DecodeMessages(x + y, decode) == DecodeMessages(x, decode) + DecodeMessages(y, decode)
  {
    if y == [] {
      assert x + y == x;
    } else {
      DecodeConcat(x, y[..|y| - 1], decode);
      assert (x + y)[..|x + y| - 1] == x + y[..|y| - 1];
    }
  }

  /** The first decoded message is the first row that decodes. */
  lemma {:induction false} FirstDecoded(rows: seq<Message>, decode: Decoder) returns (i: nat)
    requires DecodeMessages(rows, decode) != []
    ensures i < |rows| && rows[i].0 == DecodeMessages(rows, decode)[0].mid
    ensures DecodeMessages(rows[..i], decode) == []
  {
    var front := rows[..|rows| - 1];
    if DecodeMessages(front, decode) != [] {
      i := FirstDecoded(front, decode);
      assert front[..i] == rows[..i];
    } else {
      i := |rows| - 1;
    }
  }

  // ---- time windows ----

  datatype Window = Window(after: Option<int>, before: Option<int>)

  predicate TooNew(w: Window, c: Chat) {
    w.before.Some? && c.payload.createdAt > w.before.value
  }

  predicate TooOld(w: Window, c: Chat) {
    !TooNew(w, c) && w.after.Some? && c.payload.createdAt < w.after.value
  }

  predicate Inside(w: Window, c: Chat) {
    !TooNew(w, c) && !TooOld(w, c)
  }

  /** What a history request asks for: the newest `limit` messages inside the window, oldest first. */
  function Newest(chats: seq<Chat>, w: Window, limit: nat): seq<Chat> {
    if chats == [] || limit == 0 then []
    else
      var last, rest := chats[|chats| - 1], chats[..|chats| - 1];
      if Inside(w, last) then Newest(rest, w, limit - 1) + [last] else Newest(rest, w, limit)
  }

  /** The walk down from the newest message: it skips what is too new and stops at what is too old. */
  function Walk(chats: seq<Chat>, w: Window, limit: nat): (taken: seq<Chat>)
    ensures |taken| <= limit
  {
    if chats == [] || limit == 0 then []
    else
      var last, rest := chats[|chats| - 1], chats[..|chats| - 1];
      if TooNew(w, last) then Walk(rest, w, limit)
      else if TooOld(w, last) then []
      else Walk(rest, w, limit - 1) + [last]
  }

  predicate StopsShort(chats: seq<Chat>, w: Window, limit: nat) {
    chats != [] && limit > 0 &&
    (var last, rest := chats[|chats| - 1], chats[..|chats| - 1];
     if TooNew(w, last) then StopsShort(rest, w, limit)
     else TooOld(w, last) || StopsShort(rest, w, limit - 1))
  }

  /** What the newest message does to a walk. */
  lemma WalkSnoc(rest: seq<Chat>, c: Chat, w: Window, limit: nat)
    requires limit > 0
    ensures Walk(rest + [c], w, limit) ==
      if TooNew(w, c) then Walk(rest, w, limit) else if TooOld(w, c) then [] else Walk(rest, w, limit - 1) + [c]
    ensures StopsShort(rest + [c], w, limit) <==>
      if TooNew(w, c) then StopsShort(rest, w, limit) else TooOld(w, c) || StopsShort(rest, w, limit - 1)
  {
    assert (rest + [c])[..|rest|] == rest;
  }

  lemma WalkNothing(w: Window, limit: nat, chats: seq<Chat>)
    ensures Walk([], w, limit) == [] && Walk(chats, w, 0) == []
    ensures !StopsShort([], w, limit) && !StopsShort(chats, w, 0)
  {
  }

  /** Walking a stretch of history is walking its newer part, then its older part unless the walk is over. */
  lemma {:induction false} WalkConcat(x: seq<Chat>, y: seq<Chat>, w: Window, limit: nat)
    ensures var taken := Walk(y, w, limit);
      Walk(x + y, w, limit) ==
        if StopsShort(y, w, limit) then taken else Walk(x, w, limit - |taken|) + taken
    decreases |y|
  {
    hide Walk, StopsShort;
    WalkNothing(w, limit, x);
    WalkNothing(w, limit, y);
    WalkNothing(w, limit, x + y);
    if y == [] {
      assert x + y == x;
    } else if limit > 0 {
      var rest, c := y[..|y| - 1], y[|y| - 1];
      assert x + y == (x + rest) + [c] && y == rest + [c];
      WalkSnoc(x + rest, c, w, limit);
      WalkSnoc(rest, c, w, limit);
      if TooNew(w, c) {
        WalkConcat(x, rest, w, limit);
      } else if Inside(w, c) {
        WalkConcat(x, rest, w, limit - 1);
      }
    }
  }

  // ---- the walk, page by page ----

  /** What the loop returns when it still has `pages` pages and stands above the first `n` rows. */
  function Pages(rows: seq<Message>, decode: Decoder, n: nat, pages: nat, size: nat, w: Window, limit: nat): seq<Chat>
    requires n <= |rows| && size > 0 && Ascending(rows)
    decreases pages
  {
    if pages == 0 || limit == 0 then []
    else
      var batch := DecodeMessages(rows[PageStart(n, size)..n], decode);
      if batch == [] then []
      else
        var taken := Walk(batch, w, limit);
        if StopsShort(batch, w, limit) then taken
        else Pages(rows, decode, Below(rows, Some(batch[0].mid)), pages - 1, size, w, limit - |taken|) + taken
  }

  predicate PositiveIds(rows: seq<Message>) {
    forall i :: 0 <= i < |rows| ==> 0 < rows[i].0
  }

  lemma BelowRow(rows: seq<Message>, i: nat)
    requires Ascending(rows) && PositiveIds(rows) && i < |rows|
    ensures Below(rows, Some(rows[i].0)) == i
  {
    hide Below;
    var n := Below(rows, Some(rows[i].0));
    assert n < |rows| ==> rows[n].0 >= rows[i].0;
    assert n <= i;
  }

  lemma DecodeNothing(decode: Decoder)
    ensures DecodeMessages([], decode) == []
  {
  }

  /** The lowest row that `pages` pages can reach: each starts at the oldest message of the one above it. */
  function Reach(rows: seq<Message>, decode: Decoder, n: nat, pages: nat, size: nat): nat
    requires n <= |rows| && Ascending(rows)
    decreases pages
  {
    if pages == 0 then n
    else
      var batch := DecodeMessages(rows[PageStart(n, size)..n], decode);
      if batch == [] then n else Reach(rows, decode, Below(rows, Some(batch[0].mid)), pages - 1, size)
  }

  /** The next page starts at a row of this one, and no row in between decodes. */
  lemma NextPageStart(rows: seq<Message>, decode: Decoder, n: nat, size: nat)
    requires n <= |rows| && Ascending(rows) && PositiveIds(rows)
    requires DecodeMessages(rows[PageStart(n, size)..n], decode) != []
    ensures var batch := DecodeMessages(rows[PageStart(n, size)..n], decode);
      var next := Below(rows, Some(batch[0].mid));
      PageStart(n, size) <= next < n && DecodeMessages(rows[next..n], decode) == batch
  {
    hide DecodeMessages, Below;
    var lo := PageStart(n, size);
    var i := FirstDecoded(rows[lo..n], decode);
    BelowRow(rows, lo + i);
    assert rows[lo..n][..i] == rows[lo..lo + i];
    assert rows[lo..lo + i] + rows[lo + i..n] == rows[lo..n];
    DecodeConcat(rows[lo..lo + i], rows[lo + i..n], decode);
  }

  lemma {:induction false} ReachIsBelow(rows: seq<Message>, decode: Decoder, n: nat, pages: nat, size: nat)
    requires n <= |rows| && Ascending(rows) && PositiveIds(rows)
    ensures Reach(rows, decode, n, pages, size) <= n
    decreases pages
  {
    hide DecodeMessages, Below;
    if pages > 0 && DecodeMessages(rows[PageStart(n, size)..n], decode) != [] {
      NextPageStart(rows, decode, n, size);
      ReachIsBelow(rows, decode, Below(rows, Some(DecodeMessages(rows[PageStart(n, size)..n], decode)[0].mid)),
        pages - 1, size);
    }
  }

  /** The pages add up to one walk over the rows within reach. */
  lemma {:induction false} PagesAreOneWalk(rows: seq<Message>, decode: Decoder, n: nat, pages: nat, size: nat,
                                           w: Window, limit: nat)
    requires n <= |rows| && size > 0 && Ascending(rows) && PositiveIds(rows)
    ensures Reach(rows, decode, n, pages, size) <= n
    ensures Pages(rows, decode, n, pages, size, w, limit) ==
      Walk(DecodeMessages(rows[Reach(rows, decode, n, pages, size)..n], decode), w, limit)
    decreases pages
  {
    hide Walk, StopsShort, Below, DecodeMessages;
    var far := Reach(rows, decode, n, pages, size);
    ReachIsBelow(rows, decode, n, pages, size);
    DecodeNothing(decode);
    WalkNothing(w, limit, DecodeMessages(rows[far..n], decode));
    var batch := DecodeMessages(rows[PageStart(n, size)..n], decode);
    if pages == 0 || batch == [] {
      assert rows[n..n] == [];
    } else if limit > 0 {
      NextPageStart(rows, decode, n, size);
      var next := Below(rows, Some(batch[0].mid));
      PagesAreOneWalk(rows, decode, next, pages - 1, size, w, limit - |Walk(batch, w, limit)|);
      DecodeConcat(rows[far..next], rows[next..n], decode);
      assert rows[far..next] + rows[next..n] == rows[far..n];
      WalkConcat(DecodeMessages(rows[far..next], decode), batch, w, limit);
    }
  }

  /** When every row decodes, `pages` pages reach `pages * size` rows. */
  lemma {:induction false} ReachOfDecodable(rows: seq<Message>, decode: Decoder, n: nat, pages: nat, size: nat)
    requires n <= |rows| && size > 0 && Ascending(rows) && PositiveIds(rows) && Decodable(rows, decode)
    ensures Reach(rows, decode, n, pages, size) == PageStart(n, pages * size)
    decreases pages
  {
    hide Below, DecodeMessages;
    if pages > 0 {
      var lo := PageStart(n, size);
      DecodeAll(rows[lo..n], decode);
      assert pages * size == (pages - 1) * size + size;
      if lo < n {
        BelowRow(rows, lo);
        ReachOfDecodable(rows, decode, lo, pages - 1, size);
      }
    }
  }

  // ---- when the walk answers the request ----

  function CountInside(chats: seq<Chat>, w: Window): nat {
    if chats == [] then 0
    else CountInside(chats[..|chats| - 1], w) + if Inside(w, chats[|chats| - 1]) then 1 else 0
  }

  /**
   Every message of the answer, that is every message of the window with fewer than `limit`
   newer ones in the window, is at or above `floor` and has no too-old message newer than it.
   */
  predicate InReach(chats: seq<Chat>, floor: nat, w: Window, limit: nat) {
    forall j :: 0 <= j < |chats| && Inside(w, chats[j]) && CountInside(chats[j + 1..], w) < limit ==>
      floor <= j && forall i :: j < i < |chats| ==> !TooOld(w, chats[i])
  }

  lemma {:induction false} NewestOfNone(chats: seq<Chat>, w: Window, limit: nat)
    requires limit > 0
    ensures Newest(chats, w, limit) == [] <==> CountInside(chats, w) == 0
    ensures CountInside(chats, w) == 0 <==> forall j :: 0 <= j < |chats| ==> !Inside(w, chats[j])
  {
    if chats != [] {
      NewestOfNone(chats[..|chats| - 1], w, limit);
    }
  }

  lemma {:induction false} LastInside(chats: seq<Chat>, w: Window) returns (j: nat)
    requires CountInside(chats, w) > 0
    ensures j < |chats| && Inside(w, chats[j]) && CountInside(chats[j + 1..], w) == 0
  {
    var rest, last := chats[..|chats| - 1], chats[|chats| - 1];
    if Inside(w, last) {
      j := |chats| - 1;
      assert chats[j + 1..] == [];
    } else {
      j := LastInside(rest, w);
      CountAfter(chats, w, j);
    }
  }

  lemma CountAfter(chats: seq<Chat>, w: Window, j: nat)
    requires j < |chats| - 1
    ensures CountInside(chats[j + 1..], w) ==
      CountInside(chats[..|chats| - 1][j + 1..], w) + if Inside(w, chats[|chats| - 1]) then 1 else 0
  {
    var tail := chats[j + 1..];
    assert tail[..|tail| - 1] == chats[..|chats| - 1][j + 1..];
  }

  /** A walk that ends at once answers the request only if there is nothing to answer. */
  lemma BlockedWalk(chats: seq<Chat>, floor: nat, w: Window, limit: nat)
    requires limit > 0 && chats != []
    requires floor >= |chats| || TooOld(w, chats[|chats| - 1])
    ensures InReach(chats, floor, w, limit) <==> Newest(chats, w, limit) == []
  {
    NewestOfNone(chats, w, limit);
    if CountInside(chats, w) > 0 {
      var j := LastInside(chats, w);
      assert !InReach(chats, floor, w, limit);
    }
  }

  lemma InReachRest(chats: seq<Chat>, floor: nat, w: Window, limit: nat)
    requires chats != [] && floor < |chats| && limit > 0 && !TooOld(w, chats[|chats| - 1])
    ensures var rest := chats[..|chats| - 1];
      InReach(chats, floor, w, limit) <==>
      InReach(rest, floor, w, if Inside(w, chats[|chats| - 1]) then limit - 1 else limit)
  {
    var rest, last := chats[..|chats| - 1], chats[|chats| - 1];
    var left := if Inside(w, last) then limit - 1 else limit;
    if InReach(chats, floor, w, limit) {
      forall j | 0 <= j < |rest| && Inside(w, rest[j]) && CountInside(rest[j + 1..], w) < left
        ensures floor <= j && forall i :: j < i < |rest| ==> !TooOld(w, rest[i])
      {
        CountAfter(chats, w, j);
        assert chats[j] == rest[j];
        assert forall i :: j < i < |rest| ==> rest[i] == chats[i];
      }
    }
    if InReach(rest, floor, w, left) {
      forall j | 0 <= j < |chats| && Inside(w, chats[j]) && CountInside(chats[j + 1..], w) < limit
        ensures floor <= j && forall i :: j < i < |chats| ==> !TooOld(w, chats[i])
      {
        if j < |rest| {
          CountAfter(chats, w, j);
          assert chats[j] == rest[j];
          assert forall i :: j < i < |rest| ==> rest[i] == chats[i];
        }
      }
    }
  }

  lemma SameAfterAppend(x: seq<Chat>, y: seq<Chat>, c: Chat)
    ensures x + [c] == y + [c] <==> x == y
  {
    assert (x + [c])[..|x|] == x && (y + [c])[..|y|] == y;
  }

  /** The walk over the messages from `floor` up is the answer exactly when the answer is in reach. */
  lemma {:induction false} WalkAnswersExactlyWhenInReach(chats: seq<Chat>, floor: nat, w: Window, limit: nat)
    requires floor <= |chats|
    ensures Walk(chats[floor..], w, limit) == Newest(chats, w, limit) <==> InReach(chats, floor, w, limit)
    decreases |chats|
  {
    if limit > 0 && chats != [] {
      var rest, last := chats[..|chats| - 1], chats[|chats| - 1];
      var tail := chats[floor..];
      if floor == |chats| || TooOld(w, last) {
        BlockedWalk(chats, floor, w, limit);
      } else {
        assert tail[..|tail| - 1] == rest[floor..] && tail[|tail| - 1] == last;
        InReachRest(chats, floor, w, limit);
        var left := if Inside(w, last) then limit - 1 else limit;
        WalkAnswersExactlyWhenInReach(rest, floor, w, left);
        SameAfterAppend(Walk(rest[floor..], w, left), Newest(rest, w, left), last);
      }
    }
  }

  /** Times that never go back keep every answer in reach of a walk with no floor. */
  predicate TimesAscend(chats: seq<Chat>) {
    forall i, j :: 0 <= i < j < |chats| ==> chats[i].payload.createdAt <= chats[j].payload.createdAt
  }

  lemma AscendingTimesAreInReach(chats: seq<Chat>, w: Window, limit: nat)
    requires TimesAscend(chats)
    ensures InReach(chats, 0, w, limit)
  {
  }

  // ---- the request ----

  /** `fetch_history_by_time` over the rows of one conversation. */
  function History(rows: seq<Message>, decode: Decoder, beforeMid: Option<I64>, w: Window, limit: nat): seq<Chat>
    requires Ascending(rows)
  {
    if w.after.None? && w.before.None? then DecodeMessages(Page(rows, beforeMid, limit), decode)
    else Pages(rows, decode, Below(rows, beforeMid), PageCap(limit), PageSize(limit), w, Wanted(limit))
  }

  /** The limit is looked at after a message is taken, so a limit of 0 takes one, if the first page has one. */
  function Wanted(limit: nat): nat {
    if limit == 0 then 1 else limit
  }

  function PageCap(limit: nat): nat {
    if limit == 0 then 1 else MAX_PAGES
  }

  function PageSize(limit: nat): nat {
    if limit > MIN_PAGE then limit else MIN_PAGE
  }

  /** How many of the messages below row `n` lie beyond the reach of fifty pages. */
  function Floor(rows: seq<Message>, decode: Decoder, n: nat, limit: nat): nat
    requires n <= |rows| && Ascending(rows) && PositiveIds(rows)
  {
    ReachIsBelow(rows, decode, n, PageCap(limit), PageSize(limit));
    |DecodeMessages(rows[..Reach(rows, decode, n, PageCap(limit), PageSize(limit))], decode)|
  }

  /** If every row decodes, these are the rows before the last fifty pages of at least 200. */
  lemma FloorOfDecodable(rows: seq<Message>, decode: Decoder, n: nat, limit: nat)
    requires n <= |rows| && Ascending(rows) && PositiveIds(rows) && Decodable(rows, decode) && limit >= 1
    ensures var reach := 50 * (if limit > 200 then limit else 200);
      Floor(rows, decode, n, limit) == if n <= reach then 0 else n - reach
  {
    hide Reach, DecodeMessages;
    ReachOfDecodable(rows, decode, n, MAX_PAGES, PageSize(limit));
    DecodeAll(rows[..PageStart(n, MAX_PAGES * PageSize(limit))], decode);
  }

  /** Each message of the window from `floor` up has a too-old message after it. */
  predicate Blocked(chats: seq<Chat>, floor: nat, w: Window) {
    forall j :: floor <= j < |chats| && Inside(w, chats[j]) ==> exists i :: j < i < |chats| && TooOld(w, chats[i])
  }

  lemma {:induction false} WalkFindsNothingExactly(chats: seq<Chat>, floor: nat, w: Window)
    requires floor <= |chats|
    ensures Walk(chats[floor..], w, 1) == [] <==> Blocked(chats, floor, w)
  {
    if floor < |chats| {
      var rest, last, tail := chats[..|chats| - 1], chats[|chats| - 1], chats[floor..];
      assert tail[..|tail| - 1] == rest[floor..] && tail[|tail| - 1] == last;
      WalkFindsNothingExactly(rest, floor, w);
      if TooNew(w, last) {
        assert Blocked(chats, floor, w) <==> Blocked(rest, floor, w) by { SkippedBlocksNothing(chats, floor, w); }
      }
    }
  }

  lemma SkippedBlocksNothing(chats: seq<Chat>, floor: nat, w: Window)
    requires floor < |chats| && TooNew(w, chats[|chats| - 1])
    ensures Blocked(chats, floor, w) <==> Blocked(chats[..|chats| - 1], floor, w)
  {
    var rest := chats[..|chats| - 1];
    forall j | floor <= j < |rest| && Inside(w, rest[j])
      ensures (exists i :: j < i < |chats| && TooOld(w, chats[i])) <==>
        (exists i :: j < i < |rest| && TooOld(w, rest[i]))
    {
      if i :| j < i < |chats| && TooOld(w, chats[i]) { assert rest[i] == chats[i]; }
      if i :| j < i < |rest| && TooOld(w, rest[i]) { assert chats[i] == rest[i]; }
    }
  }

  /**
   A request with a time bound gets the newest `limit` messages of its window if and only if
   those are in reach: fifty pages get to them, and no too-old message comes after one of them.
   With a limit of 0 it returns nothing only if too-old messages come after all that the first
   page has of the window.
   */
  lemma HistoryIsNewestExactlyWhenInReach(rows: seq<Message>, decode: Decoder, beforeMid: Option<I64>, w: Window,
                                          limit: nat)
    requires Ascending(rows) && PositiveIds(rows) && (w.after.Some? || w.before.Some?)
    ensures var n := Below(rows, beforeMid);
      var chats, floor := DecodeMessages(rows[..n], decode), Floor(rows, decode, n, limit);
      History(rows, decode, beforeMid, w, limit) == Newest(chats, w, limit) <==>
      if limit == 0 then Blocked(chats, floor, w) else InReach(chats, floor, w, limit)
  {
    hide Walk, InReach, Below, Pages, DecodeMessages, Reach, Blocked;
    var n := Below(rows, beforeMid);
    var far := Reach(rows, decode, n, PageCap(limit), PageSize(limit));
    PagesAreOneWalk(rows, decode, n, PageCap(limit), PageSize(limit), w, Wanted(limit));
    DecodeConcat(rows[..far], rows[far..n], decode);
    assert rows[..far] + rows[far..n] == rows[..n];
    var chats, floor := DecodeMessages(rows[..n], decode), Floor(rows, decode, n, limit);
    assert DecodeMessages(rows[far..n], decode) == chats[floor..];
    WalkAnswersExactlyWhenInReach(chats, floor, w, limit);
    WalkFindsNothingExactly(chats, floor, w);
  }

  /** In particular when every row decodes, times never go back, and the history is at most fifty pages long. */
  lemma HistoryIsNewest(rows: seq<Message>, decode: Decoder, beforeMid: Option<I64>, w: Window, limit: nat)
    requires Ascending(rows) && PositiveIds(rows) && Decodable(rows, decode)
    requires (w.after.Some? || w.before.Some?) && limit >= 1
    requires TimesAscend(DecodeMessages(rows[..Below(rows, beforeMid)], decode))
    requires Below(rows, beforeMid) <= MAX_PAGES * PageSize(limit)
    ensures History(rows, decode, beforeMid, w, limit) ==
      Newest(DecodeMessages(rows[..Below(rows, beforeMid)], decode), w, limit)
  {
    hide Pages, Newest, InReach, TimesAscend, Below, DecodeMessages, Reach;
    var n := Below(rows, beforeMid);
    ReachOfDecodable(rows, decode, n, MAX_PAGES, PageSize(limit));
    assert rows[..0] == [];
    DecodeNothing(decode);
    AscendingTimesAreInReach(DecodeMessages(rows[..n], decode), w, limit);
    HistoryIsNewestExactlyWhenInReach(rows, decode, beforeMid, w, limit);
  }

  /** Ids ascend in what is decoded from ascending rows. */
  predicate IdsAscend(chats: seq<Chat>) {
    forall i, j :: 0 <= i < j < |chats| ==> chats[i].mid < chats[j].mid
  }

  /** From `after` to `before`, both included, as far as they are given. */
  predicate InTime(w: Window, time: int) {
    (w.after.Some? ==> w.after.value <= time) && (w.before.Some? ==> time <= w.before.value)
  }

  lemma {:induction false} NewestByTime(chats: seq<Chat>, w: Window, limit: nat)
    requires IdsAscend(chats)
    ensures var r := Newest(chats, w, limit);
      && |r| <= limit && IdsAscend(r)
      && (forall c :: c in r ==> c in chats && InTime(w, c.payload.createdAt))
      && (forall c :: c in chats && InTime(w, c.payload.createdAt) ==>
            c in r || (|r| == limit && forall d :: d in r ==> c.mid < d.mid))
  {
    if chats != [] && limit > 0 {
      var last, rest := chats[|chats| - 1], chats[..|chats| - 1];
      assert forall c :: c in chats <==> c in rest || c == last;
      assert Inside(w, last) <==> InTime(w, last.payload.createdAt);
      if Inside(w, last) {
        NewestByTime(rest, w, limit - 1);
        var older, r := Newest(rest, w, limit - 1), Newest(chats, w, limit);
        assert forall c :: c in r <==> c in older || c == last;
        hide Newest, Inside, InTime;
        assert forall c :: c in rest ==> c.mid < last.mid;
      } else {
        NewestByTime(rest, w, limit);
      }
    }
  }

  /**
   What a request with a time bound returns when times never go back, in rows, ids and times: at
   most `limit` messages in id order, each below the cursor and from `after` to `before` inclusive;
   and every such message, or `limit` of them that are all newer.
   */
  lemma HistoryByTime(rows: seq<Message>, decode: Decoder, beforeMid: Option<I64>, w: Window, limit: nat)
    requires Ascending(rows) && PositiveIds(rows) && Decodable(rows, decode)
    requires (w.after.Some? || w.before.Some?) && limit >= 1
    requires forall i, j :: 0 <= i < j < |rows| ==>
      decode(rows[i].1).value.createdAt <= decode(rows[j].1).value.createdAt
    requires |rows| <= 50 * (if limit > 200 then limit else 200)
    ensures var r := History(rows, decode, beforeMid, w, limit);
      && |r| <= limit
      && (forall i, j :: 0 <= i < j < |r| ==> r[i].mid < r[j].mid)
      && (forall c :: c in r ==>
            && (exists i :: 0 <= i < |rows| && c == Chat(rows[i].0, decode(rows[i].1).value))
            && (beforeMid.Some? && beforeMid.value >= 0 ==> c.mid < beforeMid.value)
            && (w.after.Some? ==> w.after.value <= c.payload.createdAt)
            && (w.before.Some? ==> c.payload.createdAt <= w.before.value))
      && (forall i | 0 <= i < |rows| ::
            ((beforeMid.Some? && beforeMid.value >= 0 ==> rows[i].0 < beforeMid.value)
              && (w.after.Some? ==> w.after.value <= decode(rows[i].1).value.createdAt)
              && (w.before.Some? ==> decode(rows[i].1).value.createdAt <= w.before.value)) ==>
                || Chat(rows[i].0, decode(rows[i].1).value) in r
                || (|r| == limit && forall c :: c in r ==> rows[i].0 < c.mid))
  {
    hide Below, DecodeMessages, Newest, TimesAscend, History;
    var n := Below(rows, beforeMid);
    var chats := DecodeMessages(rows[..n], decode);
    DecodeAll(rows[..n], decode);
    TimesOfRows(rows, decode, n);
    HistoryIsNewest(rows, decode, beforeMid, w, limit);
    NewestByTime(chats, w, limit);
    forall c | c in chats
      ensures exists i :: 0 <= i < |rows| && c == Chat(rows[i].0, decode(rows[i].1).value) && i < n
    {
      var i :| 0 <= i < |chats| && chats[i] == c;
      assert rows[..n][i] == rows[i];
    }
    forall i | 0 <= i < n ensures Chat(rows[i].0, decode(rows[i].1).value) in chats {
      assert rows[..n][i] == rows[i];
      assert chats[i] == Chat(rows[i].0, decode(rows[i].1).value);
    }
  }

  lemma TimesOfRows(rows: seq<Message>, decode: Decoder, n: nat)
    requires n <= |rows| && Ascending(rows) && Decodable(rows, decode)
    requires forall i, j :: 0 <= i < j < |rows| ==>
      decode(rows[i].1).value.createdAt <= decode(rows[j].1).value.createdAt
    ensures TimesAscend(DecodeMessages(rows[..n], decode)) && IdsAscend(DecodeMessages(rows[..n], decode))
  {
    hide DecodeMessages;
    DecodeAll(rows[..n], decode);
    assert forall i :: 0 <= i < n ==> rows[..n][i] == rows[i];
  }

  /** Without a time bound a request returns the newest `limit` messages below the cursor, oldest first. */
  lemma HistoryWithoutTimes(rows: seq<Message>, decode: Decoder, beforeMid: Option<I64>, limit: nat)
    requires Ascending(rows) && Decodable(rows, decode)
    ensures var r, n := History(rows, decode, beforeMid, Window(None, None), limit), Below(rows, beforeMid);
      && |r| == (if n < limit then n else limit)
      && forall i :: 0 <= i < |r| ==> var row := rows[n - |r| + i]; r[i] == Chat(row.0, decode(row.1).value)
  {
    hide Below, DecodeMessages;
    DecodeAll(Page(rows, beforeMid, limit), decode);
  }

  /** With a limit of 0 and a time bound it returns the newest match among the 200 rows below the cursor, if any. */
  lemma HistoryWithLimitZero(rows: seq<Message>, decode: Decoder, beforeMid: Option<I64>, w: Window)
    requires Ascending(rows) && PositiveIds(rows) && Decodable(rows, decode) && (w.after.Some? || w.before.Some?)
    requires forall i, j :: 0 <= i < j < |rows| ==>
      decode(rows[i].1).value.createdAt <= decode(rows[j].1).value.createdAt
    ensures var n := Below(rows, beforeMid);
      History(rows, decode, beforeMid, w, 0) ==
        Newest(DecodeMessages(rows[if n < 200 then 0 else n - 200..n], decode), w, 1)
  {
    hide Below, DecodeMessages, Newest, Walk, InReach, Pages, Reach, TimesAscend, StopsShort;
    var n := Below(rows, beforeMid);
    var far := PageStart(n, MIN_PAGE);
    var chats := DecodeMessages(rows[far..n], decode);
    assert History(rows, decode, beforeMid, w, 0) == Walk(chats, w, 1) by {
      ReachOfDecodable(rows, decode, n, 1, MIN_PAGE);
      PagesAreOneWalk(rows, decode, n, 1, MIN_PAGE, w, 1);
    }
    TimesOfSlice(rows, decode, far, n);
    AscendingTimesAreInReach(chats, w, 1);
    WalkAnswersExactlyWhenInReach(chats, 0, w, 1);
    assert chats[0..] == chats;
  }

  lemma TimesOfSlice(rows: seq<Message>, decode: Decoder, lo: nat, n: nat)
    requires lo <= n <= |rows| && Decodable(rows, decode)
    requires forall i, j :: 0 <= i < j < |rows| ==>
      decode(rows[i].1).value.createdAt <= decode(rows[j].1).value.createdAt
    ensures TimesAscend(DecodeMessages(rows[lo..n], decode))
  {
    hide DecodeMessages;
    DecodeAll(rows[lo..n], decode);
    assert forall i :: 0 <= i < n - lo ==> rows[lo..n][i] == rows[lo + i];
  }

  /** A message sent late with an early time ends the walk and hides a message the window asks for. */
  lemma LateArrivalHidesAMessage(a: I64, b: I64, x: Key, y: Key, decode: Decoder)
    requires 0 < a < b && decode(x) == Some(Payload(5, "")) && decode(y) == Some(Payload(0, ""))
    ensures var rows, w := [(a, x), (b, y)], Window(Some(5), None);
      && History(rows, decode, None, w, 1) == []
      && Newest(DecodeMessages(rows, decode), w, 1) == [Chat(a, Payload(5, ""))]
  {
    var rows: seq<Message> := [(a, x), (b, y)];
    var w := Window(Some(5), None);
    var late, early := Chat(a, Payload(5, "")), Chat(b, Payload(0, ""));
    assert rows[..1] == [(a, x)] && rows[..1][..0] == [];
    assert DecodeMessages(rows[..1], decode) == [late];
    assert DecodeMessages(rows, decode) == [late, early];
    assert [late, early][..1] == [late] && [late][..0] == [];
    assert Newest([late], w, 1) == Newest([], w, 0) + [late];
    hide DecodeMessages, Newest;
    assert rows[0..2] == rows && Below(rows, None) == 2;
    PagesStep(rows, decode, 2, MAX_PAGES, PageSize(1), w, 1);
  }

  /** A page in which no row decodes ends the walk, whatever lies below it. */
  lemma UndecodablePageEndsTheWalk(rows: seq<Message>, decode: Decoder, beforeMid: Option<I64>, w: Window, limit: nat)
    requires Ascending(rows) && (w.after.Some? || w.before.Some?)
    requires DecodeMessages(Page(rows, beforeMid, PageSize(limit)), decode) == []
    ensures History(rows, decode, beforeMid, w, limit) == []
  {
    hide Walk, Below, DecodeMessages;
  }

  /** Without a time bound the request is one page: the newest `limit` messages below the cursor. */
  lemma {:induction false} UnboundedWindow(chats: seq<Chat>, limit: nat)
    ensures Newest(chats, Window(None, None), limit) == chats[PageStart(|chats|, limit)..]
  {
    if chats != [] && limit > 0 {
      var rest := chats[..|chats| - 1];
      UnboundedWindow(rest, limit - 1);
      assert chats[PageStart(|chats|, limit)..] == rest[PageStart(|rest|, limit - 1)..] + [chats[|chats| - 1]];
    }
  }

  // ---- the loop ----

  function Flipped(s: seq<Chat>): (r: seq<Chat>)
    ensures |r| == |s| && forall i :: 0 <= i < |r| ==> r[i] == s[|s| - 1 - i]
  {
    seq(|s|, i requires 0 <= i < |s| => s[|s| - 1 - i])
  }

  /** One page of the walk, newest message first, appended to what is already matched. */
  method WalkBatch(batch: seq<Chat>, w: Window, matched: seq<Chat>, limit: nat)
    returns (matched': seq<Chat>, hitTooOld: bool)
    requires |matched| < Wanted(limit)
    ensures Flipped(matched') == Walk(batch, w, Wanted(limit) - |matched|) + Flipped(matched)
    ensures |matched'| == |matched| + |Walk(batch, w, Wanted(limit) - |matched|)|
    ensures hitTooOld || |matched'| == Wanted(limit) <==>
      StopsShort(batch, w, Wanted(limit) - |matched|) || |matched'| == Wanted(limit)
  {
    matched', hitTooOld := matched, false;
    var i := |batch|;
    assert batch[..i] == batch;
    while i > 0
      invariant 0 <= i <= |batch| && |matched'| < Wanted(limit) && !hitTooOld
      invariant Walk(batch, w, Wanted(limit) - |matched|) + Flipped(matched) ==
        Walk(batch[..i], w, Wanted(limit) - |matched'|) + Flipped(matched')
      invariant StopsShort(batch, w, Wanted(limit) - |matched|) <==>
        StopsShort(batch[..i], w, Wanted(limit) - |matched'|)
    {
      i := i - 1;
      var msg := batch[i];
      assert batch[..i + 1][..i] == batch[..i] && batch[..i + 1][i] == msg;
      if w.before.Some? && msg.payload.createdAt > w.before.value { continue; }
      if w.after.Some? && msg.payload.createdAt < w.after.value {
        hitTooOld := true;
        break;
      }
      assert Flipped(matched' + [msg]) == [msg] + Flipped(matched');
      matched' := matched' + [msg];
      if |matched'| >= limit { break; }
    }
  }

  lemma PagesStep(rows: seq<Message>, decode: Decoder, n: nat, pages: nat, size: nat, w: Window, limit: nat)
    requires n <= |rows| && size > 0 && Ascending(rows) && pages > 0 && limit > 0
    ensures var batch := DecodeMessages(rows[PageStart(n, size)..n], decode);
      var taken := Walk(batch, w, limit);
      Pages(rows, decode, n, pages, size, w, limit) ==
        if batch == [] then []
        else if StopsShort(batch, w, limit) || |taken| == limit then taken
        else Pages(rows, decode, Below(rows, Some(batch[0].mid)), pages - 1, size, w, limit - |taken|) + taken
  {
    hide Walk, StopsShort, DecodeMessages, Below;
  }

  /** The cursor strictly decreases: the oldest message of a page is below the cursor it was fetched with. */
  lemma CursorDecreases(rows: seq<Message>, decode: Decoder, cursor: Option<I64>, size: nat)
    requires Ascending(rows) && PositiveIds(rows)
    requires DecodeMessages(Page(rows, cursor, size), decode) != []
    ensures var oldest := DecodeMessages(Page(rows, cursor, size), decode)[0].mid;
      && (cursor.Some? && cursor.value >= 0 ==> oldest < cursor.value) && cursor != Some(oldest)
      && Below(rows, Some(oldest)) < Below(rows, cursor)
  {
    hide DecodeMessages, Below;
    var lo := PageStart(Below(rows, cursor), size);
    var i := FirstDecoded(Page(rows, cursor, size), decode);
    assert Page(rows, cursor, size)[i] == rows[lo + i];
    BelowRow(rows, lo + i);
  }

  method FetchHistoryByTime(rows: seq<Message>, decode: Decoder, beforeMid: Option<I64>, w: Window, limit: nat)
    returns (chats: seq<Chat>)
    requires Ascending(rows) && PositiveIds(rows)
    ensures chats == History(rows, decode, beforeMid, w, limit)
  {
    hide Walk, StopsShort, Pages, DecodeMessages, Below, Ascending, PositiveIds;
    if w.after.None? && w.before.None? {
      return DecodeMessages(Page(rows, beforeMid, limit), decode);
    }
    var size := PageSize(limit);
    var cursor := beforeMid;
    var matched: seq<Chat> := [];
    DecodeNothing(decode);
    assert History(rows, decode, beforeMid, w, limit) ==
      Pages(rows, decode, Below(rows, cursor), PageCap(limit), size, w, Wanted(limit)) + Flipped(matched);
    var k := 0;
    while k < MAX_PAGES
      invariant 0 <= k <= MAX_PAGES && |matched| < Wanted(limit) && (limit == 0 ==> k == 0)
      invariant History(rows, decode, beforeMid, w, limit) ==
        Pages(rows, decode, Below(rows, cursor), PageCap(limit) - k, size, w, Wanted(limit) - |matched|)
          + Flipped(matched)
    {
      PagesStep(rows, decode, Below(rows, cursor), PageCap(limit) - k, size, w, Wanted(limit) - |matched|);
      var page := Page(rows, cursor, size);
      if page == [] { return Flipped(matched); }
      var batch := DecodeMessages(page, decode);
      if batch == [] { return Flipped(matched); }
      CursorDecreases(rows, decode, cursor, size);
      var oldest := batch[0].mid;
      var hitTooOld;
      matched, hitTooOld := WalkBatch(batch, w, matched, limit);
      if limit == 0 { PagesExhausted(rows, decode, Below(rows, Some(oldest)), size, w, Wanted(limit) - |matched|); }
      if |matched| >= limit || hitTooOld { return Flipped(matched); }
      if cursor == Some(oldest) { return Flipped(matched); }
      cursor := Some(oldest);
      k := k + 1;
    }
    PagesExhausted(rows, decode, Below(rows, cursor), size, w, Wanted(limit) - |matched|);
    chats := Flipped(matched);
  }

  lemma PagesExhausted(rows: seq<Message>, decode: Decoder, n: nat, size: nat, w: Window, limit: nat)
    requires n <= |rows| && size > 0 && Ascending(rows)
    ensures Pages(rows, decode, n, 0, size, w, limit) == []
  {
  }
}
