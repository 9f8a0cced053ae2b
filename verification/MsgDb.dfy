/**
 The message store itself: one ordered tree of byte keys, and the id allocator.

 The methods work on bytes as the store does. The ghost `log` records the events written;
 `Valid` says the tree is exactly what that log leaves, so every contract below can be
 stated about plain conversations of messages by id.
 */
module MsgDb {
  import opened Wrappers
  import opened Bytes
  import opened Keys
  import opened Journal

  type Message = (I64, Key)

  // ---- the tree as bytes and as slots ----

  /** `tree` holds the entries of `m`, under their encoded keys, and nothing else. */
  ghost predicate Represents(tree: map<Key, Key>, m: map<Slot, Key>) {
    && (forall s :: s in m ==> Encode(s) in tree && tree[Encode(s)] == m[s])
    && (forall k :: k in tree ==> SlotOf(k).Some? && SlotOf(k).value in m)
  }

  lemma EmptyRepresents(v: Key)
    ensures Represents(map[], Entries({}, v))
  {
  }

  lemma RepresentsGet(tree: map<Key, Key>, m: map<Slot, Key>, s: Slot)
    requires Represents(tree, m)
    ensures Encode(s) in tree <==> s in m
    ensures s in m ==> tree[Encode(s)] == m[s]
  {
    hide Encode, SlotOf;
    SlotOfEncoded(s);
  }

  lemma RepresentsUnion(tree: map<Key, Key>, m: map<Slot, Key>, batch: map<Key, Key>, w: map<Slot, Key>)
    requires Represents(tree, m) && Represents(batch, w)
    ensures Represents(tree + batch, m + w)
  {
    hide Encode, SlotOf;
    forall s | s in m + w ensures Encode(s) in tree + batch && (tree + batch)[Encode(s)] == (m + w)[s] {
      SlotOfEncoded(s);
    }
  }

  lemma RepresentsPut(tree: map<Key, Key>, m: map<Slot, Key>, s: Slot, v: Key)
    requires Represents(tree, m)
    ensures Represents(tree[Encode(s) := v], m[s := v])
  {
    hide Encode, SlotOf;
    SlotOfEncoded(s);
    forall t | t in m && t != s ensures Encode(t) != Encode(s) {
      SlotOfEncoded(t);
    }
  }

  lemma RepresentsRemove(tree: map<Key, Key>, m: map<Slot, Key>, s: Slot)
    requires Represents(tree, m)
    ensures Represents(tree - {Encode(s)}, m - {s})
  {
    hide Encode, SlotOf;
    forall t | t in m && t != s ensures Encode(t) != Encode(s) {
      SlotOfEncoded(s);
      SlotOfEncoded(t);
    }
  }

  // ---- what a scan promises ----

  /**
   `r` is the newest `limit` messages of `feed` with ids accepted by `within`, oldest first,
   each with its stored bytes: every accepted message is either in `r`, or `r` is full and
   holds only newer ones.
   */
  ghost predicate IsNewest(r: seq<Message>, feed: map<I64, Key>, within: set<I64>, limit: nat) {
    && |r| <= limit
    && (forall i, j :: 0 <= i < j < |r| ==> r[i].0 < r[j].0)
    && (forall i :: 0 <= i < |r| ==> r[i].0 in feed && r[i].0 in within && r[i].1 == feed[r[i].0])
    && (forall m :: m in feed && m in within ==>
          Has(r, m) || (|r| == limit && forall i :: 0 <= i < |r| ==> m < r[i].0))
  }

  ghost predicate Has(r: seq<Message>, m: I64) {
    exists i :: 0 <= i < |r| && r[i].0 == m
  }

  /** The ids of `feed` below a cursor; a negative cursor, read as 64 bits, lies above every id. */
  ghost function Before(feed: map<I64, Key>, before: Option<I64>): set<I64> {
    set m | m in feed && (before.None? || before.value < 0 || m < before.value)
  }

  /** The ids of `feed` above a cursor; one below -1, read as 64 bits, lies above every id. */
  ghost function NewerThan(feed: map<I64, Key>, after: Option<I64>): set<I64> {
    set m | m in feed && (after.None? || -1 <= after.value < m)
  }

  /** So a cursor gives the ids greater than it exactly if it is at least -1, or the feed is empty. */
  lemma CursorMeansGreater(feed: map<I64, Key>, after: I64)
    requires forall m :: m in feed ==> 0 < m
    ensures (forall m :: m in feed ==> (m in NewerThan(feed, Some(after)) <==> after < m)) <==>
      after >= -1 || feed == map[]
  {
    if after < -1 && feed != map[] {
      var m :| m in feed;
      assert after < m && m !in NewerThan(feed, Some(after));
    }
  }

  /** `i64` addition as compiled for release. */
  function Successor(x: I64): I64 {
    if x == I64_MAX then -TWO_63 else x + 1
  }

  /** The ids of `feed` in `lo..hi`, all three read as 64 bits. */
  ghost function Between(feed: map<I64, Key>, lo: I64, hi: I64): set<I64> {
    set m | m in feed && Bits(lo) <= Bits(m) < Bits(hi)
  }

  /** What a scan promises determines its result. */
  lemma {:induction false} NewestIsUnique(r: seq<Message>, q: seq<Message>, feed: map<I64, Key>, within: set<I64>,
                                          limit: nat)
    requires IsNewest(r, feed, within, limit) && IsNewest(q, feed, within, limit)
    ensures r == q
    decreases |r|
  {
    hide IsNewest;
    EmptyTogether(r, q, feed, within, limit);
    EmptyTogether(q, r, feed, within, limit);
    if r != [] {
      SameLast(r, q, feed, within, limit);
      var m := r[|r| - 1].0;
      ShorterNewest(r, feed, within, limit);
      ShorterNewest(q, feed, within, limit);
      NewestIsUnique(r[..|r| - 1], q[..|q| - 1], feed, within - {m}, limit - 1);
      assert r == r[..|r| - 1] + [r[|r| - 1]] && q == q[..|q| - 1] + [q[|q| - 1]];
    }
  }

  lemma EmptyTogether(r: seq<Message>, q: seq<Message>, feed: map<I64, Key>, within: set<I64>, limit: nat)
    requires IsNewest(r, feed, within, limit) && IsNewest(q, feed, within, limit)
    ensures r == [] ==> q == []
  {
    assert q != [] ==> q[0].0 in feed && q[0].0 in within;
  }

  lemma LastIsGreatest(r: seq<Message>, feed: map<I64, Key>, within: set<I64>, limit: nat, m: I64)
    requires IsNewest(r, feed, within, limit) && r != []
    requires m in feed && m in within
    ensures m <= r[|r| - 1].0
  {
    if Has(r, m) {
      var i :| 0 <= i < |r| && r[i].0 == m;
      assert i == |r| - 1 || r[i].0 < r[|r| - 1].0;
    }
  }

  lemma SameLast(r: seq<Message>, q: seq<Message>, feed: map<I64, Key>, within: set<I64>, limit: nat)
    requires IsNewest(r, feed, within, limit) && IsNewest(q, feed, within, limit)
    requires r != [] && q != []
    ensures r[|r| - 1] == q[|q| - 1]
  {
    LastIsGreatest(r, feed, within, limit, q[|q| - 1].0);
    LastIsGreatest(q, feed, within, limit, r[|r| - 1].0);
  }

  lemma ShorterNewest(r: seq<Message>, feed: map<I64, Key>, within: set<I64>, limit: nat)
    requires IsNewest(r, feed, within, limit) && r != []
    ensures limit > 0 && IsNewest(r[..|r| - 1], feed, within - {r[|r| - 1].0}, limit - 1)
  {
    var s, last := r[..|r| - 1], r[|r| - 1].0;
    assert r == s + [r[|r| - 1]];
    forall m | m in feed && m in within && m != last && Has(r, m) ensures Has(s, m) {
      var i :| 0 <= i < |r| && r[i].0 == m;
      assert s[i].0 == m;
    }
  }

  // ---- ordered iteration ----

  /** The keys of a range, greatest first: a range iterator run backwards. */
  predicate Descending(keys: seq<Key>) {
    forall i, j :: 0 <= i < j < |keys| ==> Less(keys[j], keys[i])
  }

  method Greatest(keys: set<Key>) returns (g: Key)
    requires keys != {}
    ensures g in keys && forall k :: k in keys ==> AtMost(k, g)
  {
    g :| g in keys;
    var rest := keys - {g};
    while rest != {}
      invariant rest <= keys && g in keys
      invariant forall k :: k in keys && k !in rest ==> AtMost(k, g)
      decreases rest
    {
      var k :| k in rest;
      rest := rest - {k};
      LessTotal(k, g);
      if Less(g, k) {
        forall j | j in keys && j !in rest ensures AtMost(j, k) {
          if j != k && j != g { LessTransitive(j, g, k); }
        }
        g := k;
      }
    }
  }

  method Backwards(range: set<Key>) returns (keys: seq<Key>)
    ensures Descending(keys) && (forall k :: k in keys <==> k in range)
  {
    keys := [];
    var rest := range;
    while rest != {}
      invariant rest <= range && Descending(keys)
      invariant forall k :: k in keys <==> k in range && k !in rest
      invariant forall k, j :: k in rest && 0 <= j < |keys| ==> Less(k, keys[j])
      decreases rest
    {
      var g := Greatest(rest);
      forall k | k in rest - {g} ensures Less(k, g) {
        assert AtMost(k, g);
      }
      keys := keys + [g];
      rest := rest - {g};
    }
  }

  method Reversed(msgs: seq<Message>) returns (r: seq<Message>)
    ensures |r| == |msgs| && forall i :: 0 <= i < |r| ==> r[i] == msgs[|msgs| - 1 - i]
  {
    r := [];
    for i := 0 to |msgs|
      invariant |r| == i && forall k :: 0 <= k < i ==> r[k] == msgs[|msgs| - 1 - k]
    {
      r := r + [msgs[|msgs| - 1 - i]];
    }
  }

  /** The messages a backward scan has taken, newest first: ids descending, none skipped. */
  ghost predicate Taken(msgs: seq<Message>, keys: seq<Key>, c: Conversation, feed: map<I64, Key>) {
    && |msgs| <= |keys|
    && forall i :: 0 <= i < |msgs| ==>
         keys[i] == Encode(Indexed(c, msgs[i].0)) && msgs[i].0 in feed && msgs[i].1 == feed[msgs[i].0]
  }

  /** A backward scan over exactly the keys of a window, cut at `limit` and reversed, is the newest part of it. */
  lemma ScanIsNewest(msgs: seq<Message>, r: seq<Message>, keys: seq<Key>, c: Conversation,
                     feed: map<I64, Key>, within: set<I64>, limit: nat)
    requires Descending(keys)
    requires forall m :: m in feed ==> 0 < m
    requires forall m :: m in feed && m in within ==> Encode(Indexed(c, m)) in keys
    requires forall m :: m in feed && Encode(Indexed(c, m)) in keys ==> m in within
    requires Taken(msgs, keys, c, feed) && |msgs| == if |keys| < limit then |keys| else limit
    requires |r| == |msgs| && forall i :: 0 <= i < |r| ==> r[i] == msgs[|msgs| - 1 - i]
    ensures IsNewest(r, feed, within, limit)
  {
    hide Encode, Less;
    forall i, j | 0 <= i < j < |r| ensures r[i].0 < r[j].0 {
      ConversationOrder(c, r[i].0, r[j].0);
    }
    forall m | m in feed && m in within
      ensures Has(r, m) || (|r| == limit && forall i :: 0 <= i < |r| ==> m < r[i].0)
    {
      var k :| 0 <= k < |keys| && keys[k] == Encode(Indexed(c, m));
      if k < |msgs| {
        EncodeInjective(Indexed(c, m), Indexed(c, msgs[k].0));
        assert r[|msgs| - 1 - k].0 == m;
      } else {
        forall i | 0 <= i < |r| ensures m < r[i].0 {
          ConversationOrder(c, m, r[i].0);
        }
      }
    }
  }

  // ---- one more event ----

  lemma LeaseContents(log: seq<Event>, v: I64)
    ensures Contents(log + [Lease(v)]) == Contents(log)[Sequence(MSG_SEQUENCE) := ToBytes(v)]
  {
    Snoc(log, Lease(v));
    assert Contents(log) - {} == Contents(log);
  }

  lemma SendContents(log: seq<Event>, e: Event)
    requires IsSend(e)
    ensures Contents(log + [e]) == Contents(log) + Written(e)
  {
    hide Written;
    Snoc(log, e);
    assert Contents(log) - {} == Contents(log);
  }

  /** A conversation with one more message, if the message is for it. */
  function Grown(feed: map<I64, Key>, forIt: bool, mid: I64, msg: Key): map<I64, Key> {
    if forIt then feed[mid := msg] else feed
  }

  /** An event adds a message to the conversations of its audience, and changes no other. */
  lemma FeedAfter(log: seq<Event>, e: Event)
    ensures IsSend(e) ==> forall c :: Feed(log + [e], c) == Grown(Feed(log, c), c in Audience(e), e.mid, e.msg)
    ensures !IsSend(e) ==> forall c :: Feed(log + [e], c) == Feed(log, c)
    ensures Marked(log + [e]) == (
      if e.DmSend? && e.pendingAt.Some? then Marked(log)[e.mid := Marker(e.sender, e.target, e.pendingAt.value)]
      else if e.Unmark? then Marked(log) - {e.mid}
      else Marked(log))
  {
    Snoc(log, e);
  }

  function UserSlots(to: seq<I64>, mid: I64): set<Slot> {
    set u | u in to :: Indexed(User(u), mid)
  }

  lemma UserSlotsSnoc(to: seq<I64>, i: nat, mid: I64)
    requires i < |to|
    ensures UserSlots(to[..i + 1], mid) == UserSlots(to[..i], mid) + {Indexed(User(to[i]), mid)}
  {
    assert to[..i + 1] == to[..i] + [to[i]];
  }

  lemma UserSlotsEmpty(to: seq<I64>, mid: I64)
    ensures {Canonical(mid)} + UserSlots(to[..0], mid) == {} + {Canonical(mid)}
  {
  }

  lemma GroupSlots(mid: I64, gid: I64, to: seq<I64>, msg: Key)
    ensures SendSlots(GroupSend(mid, gid, to, msg)) ==
      {Canonical(mid)} + UserSlots(to, mid) + {Indexed(Group(gid), mid)}
  {
    var e := GroupSend(mid, gid, to, msg);
    forall s | s in SendSlots(e) ensures s in {Canonical(mid)} + UserSlots(to, mid) + {Indexed(Group(gid), mid)} {}
    forall s | s in UserSlots(to, mid) ensures s in SendSlots(e) {
      assert s.of in Audience(e);
    }
    assert Group(gid) in Audience(e);
  }

  lemma DmSlots(mid: I64, from: I64, to: I64, msg: Key, pendingAt: Option<I64>)
    ensures SendSlots(DmSend(mid, from, to, msg, pendingAt)) ==
      {Canonical(mid)} + {Indexed(User(from), mid)} + {Indexed(User(to), mid)} + {Indexed(DmBetween(from, to), mid)}
  {
    var e := DmSend(mid, from, to, msg, pendingAt);
    assert User(from) in Audience(e) && User(to) in Audience(e) && DmBetween(from, to) in Audience(e);
  }

  // ---- the store ----

  class Db {
    var tree: map<Key, Key>
    var next: I64
    var leased: I64
    ghost var log: seq<Event>

    /** The tree is what the log leaves, and the allocator is ahead of every stored id. */
    ghost predicate Valid()
      reads this
    {
      && Represents(tree, Contents(log))
      && Sound(log)
      && 0 < next <= leased == Counter(log) && leased - next <= SEQUENCE_BANDWIDTH
      && forall m :: m in Mids(log) ==> m < next
    }

    /** `Sequence::update_sequence_lease`; the stored counter always decodes. */
    static method UpdateLease(tree: map<Key, Key>, ghost log: seq<Event>)
      returns (tree': map<Key, Key>, next: I64, leased: I64)
      requires Represents(tree, Contents(log)) && Counter(log) + SEQUENCE_BANDWIDTH < TWO_63
      ensures next == Counter(log) && leased == next + 32
      ensures Represents(tree', Contents(log + [Lease(leased)]))
    {
      hide Encode, ToBytes, FromBytes, Represents, Contents;
      var key := Encode(Sequence(MSG_SEQUENCE));
      StoredCounter(log);
      RepresentsGet(tree, Contents(log), Sequence(MSG_SEQUENCE));
      if key in tree {
        BytesRoundTrip(Counter(log));
        next := FromBytes(tree[key]);
      } else {
        next := 1;
      }
      leased := next + SEQUENCE_BANDWIDTH;
      tree' := tree[key := ToBytes(leased)];
      RepresentsPut(tree, Contents(log), Sequence(MSG_SEQUENCE), ToBytes(leased));
      LeaseContents(log, leased);
    }

    /** `MsgDb::open` on whatever a clean shutdown or a crash left behind. */
    constructor Open(tree: map<Key, Key>, ghost log: seq<Event>)
      requires Represents(tree, Contents(log)) && Sound(log) && Counter(log) + SEQUENCE_BANDWIDTH < TWO_63
      ensures Valid()
      ensures this.log == log + [Lease(Counter(log) + SEQUENCE_BANDWIDTH)] && next == Counter(log)
    {
      SoundMids(log);
      MidsAfter(log, Lease(Counter(log) + SEQUENCE_BANDWIDTH));
      var t, n, l := UpdateLease(tree, log);
      this.tree, this.next, this.leased, this.log := t, n, l, log + [Lease(l)];
    }

    /** `Drop`: the unused part of the lease is given back. */
    method Release()
      requires Valid()
      modifies this
      ensures log == old(log) + [Lease(next)] && Represents(tree, Contents(log)) && Sound(log)
      ensures Counter(log) == next == old(next)
    {
      hide Encode, ToBytes, Represents, Contents;
      RepresentsPut(tree, Contents(log), Sequence(MSG_SEQUENCE), ToBytes(next));
      LeaseContents(log, next);
      MidsAfter(log, Lease(next));
      tree := tree[Encode(Sequence(MSG_SEQUENCE)) := ToBytes(next)];
      log := log + [Lease(next)];
    }

    /** Room for one more id without leaving the 64-bit range. */
    ghost predicate HasRoom()
      reads this
    {
      next < leased || Counter(log) + SEQUENCE_BANDWIDTH < TWO_63
    }

    method GenerateMsgId() returns (mid: I64)
      requires Valid() && HasRoom()
      modifies this
      ensures Valid()
      ensures mid == old(next) && next == mid + 1 && mid < leased
      ensures log == Renewed(old(log), old(next), old(leased)).0
      ensures mid !in Mids(log) && Mids(log) == old(Mids(log))
      ensures forall c :: Feed(log, c) == old(Feed(log, c))
      ensures Marked(log) == old(Marked(log))
    {
      hide Represents, Contents, Sound;
      RenewedIsSound(log, next, leased);
      if next >= leased {
        var t, n, l := UpdateLease(tree, log);
        FeedAfter(log, Lease(l));
        tree, next, leased, log := t, n, l, log + [Lease(l)];
      }
      mid := next;
      next := next + 1;
    }

    // ---- sending ----

    /** Writes one batch: the entries of a sent message, all or none. */
    method ApplySend(batch: map<Key, Key>, ghost e: Event)
      requires Valid() && IsSend(e) && 0 < e.mid < next && e.mid !in Mids(log)
      requires Represents(batch, Written(e))
      modifies this
      ensures Valid() && log == old(log) + [e] && next == old(next) && leased == old(leased)
    {
      hide Encode, ToBytes, SlotOf, Represents, Contents, Written;
      RepresentsUnion(tree, Contents(log), batch, Written(e));
      SendContents(log, e);
      MidsAfter(log, e);
      tree := tree + batch;
      log := log + [e];
    }

    /** `Batch::insert`. */
    static method Put(batch: map<Key, Key>, ghost slots: set<Slot>, s: Slot, msg: Key) returns (batch': map<Key, Key>)
      requires Represents(batch, Entries(slots, msg))
      ensures Represents(batch', Entries(slots + {s}, msg))
    {
      hide Encode, SlotOf, Represents;
      RepresentsPut(batch, Entries(slots, msg), s, msg);
      assert Entries(slots + {s}, msg) == Entries(slots, msg)[s := msg];
      batch' := batch[Encode(s) := msg];
    }

    /** The batch of a group message: canonical entry, one entry per recipient, group entry. */
    static method GroupBatch(mid: I64, gid: I64, to: seq<I64>, msg: Key) returns (batch: map<Key, Key>)
      ensures Represents(batch, Written(GroupSend(mid, gid, to, msg)))
    {
      hide Encode, Represents, SendSlots, UserSlots, Entries;
      EmptyRepresents(msg);
      batch := Put(map[], {}, Canonical(mid), msg);
      UserSlotsEmpty(to, mid);
      for i := 0 to |to|
        invariant Represents(batch, Entries({Canonical(mid)} + UserSlots(to[..i], mid), msg))
      {
        UserSlotsSnoc(to, i, mid);
        batch := Put(batch, {Canonical(mid)} + UserSlots(to[..i], mid), Indexed(User(to[i]), mid), msg);
        assert {Canonical(mid)} + UserSlots(to[..i], mid) + {Indexed(User(to[i]), mid)} ==
               {Canonical(mid)} + UserSlots(to[..i + 1], mid);
      }
      assert to[..|to|] == to;
      batch := Put(batch, {Canonical(mid)} + UserSlots(to, mid), Indexed(Group(gid), mid), msg);
      GroupSlots(mid, gid, to, msg);
    }

    method SendToGroup(gid: I64, to: seq<I64>, msg: Key) returns (mid: I64)
      requires Valid() && HasRoom()
      modifies this
      ensures Valid()
      ensures mid == old(next) && mid !in old(Mids(log))
      ensures log == Renewed(old(log), old(next), old(leased)).0 + [GroupSend(mid, gid, to, msg)]
      ensures forall c ::
        Feed(log, c) == Grown(old(Feed(log, c)), c == Group(gid) || (c.User? && c.uid in to), mid, msg)
      ensures Marked(log) == old(Marked(log))
    {
      hide Encode, SlotOf, Represents, Contents, Sound, Feed, Marked, Written;
      mid := GenerateMsgId();
      var batch := GroupBatch(mid, gid, to, msg);
      FeedAfter(log, GroupSend(mid, gid, to, msg));
      ApplySend(batch, GroupSend(mid, gid, to, msg));
    }

    /** The batch of a direct message: canonical entry, both users' entries, the pair's entry, any marker. */
    static method DmBatch(mid: I64, from: I64, to: I64, msg: Key, pendingAt: Option<I64>) returns (batch: map<Key, Key>)
      ensures Represents(batch, Written(DmSend(mid, from, to, msg, pendingAt)))
    {
      hide Encode, Represents, SendSlots, Entries, MarkerValue;
      EmptyRepresents(msg);
      batch := Put(map[], {}, Canonical(mid), msg);
      assert {} + {Canonical(mid)} == {Canonical(mid)};
      batch := Put(batch, {Canonical(mid)}, Indexed(User(from), mid), msg);
      batch := Put(batch, {Canonical(mid)} + {Indexed(User(from), mid)}, Indexed(User(to), mid), msg);
      ghost var slots := {Canonical(mid)} + {Indexed(User(from), mid)} + {Indexed(User(to), mid)};
      batch := Put(batch, slots, Indexed(DmBetween(from, to), mid), msg);
      DmSlots(mid, from, to, msg, pendingAt);
      if pendingAt.Some? {
        var marker := MarkerValue(Marker(from, to, pendingAt.value));
        RepresentsPut(batch, SendEntries(DmSend(mid, from, to, msg, pendingAt)), Pending(mid), marker);
        batch := batch[Encode(Pending(mid)) := marker];
      }
    }

    /** `send_to_dm_inner`. */
    method SendToDm(from: I64, to: I64, msg: Key, pendingAt: Option<I64>) returns (mid: I64)
      requires Valid() && HasRoom()
      modifies this
      ensures Valid()
      ensures mid == old(next) && mid !in old(Mids(log))
      ensures log == Renewed(old(log), old(next), old(leased)).0 + [DmSend(mid, from, to, msg, pendingAt)]
      ensures forall c ::
        Feed(log, c) == Grown(old(Feed(log, c)), c in {DmBetween(from, to), User(from), User(to)}, mid, msg)
      ensures Marked(log) == (
        if pendingAt.Some? then old(Marked(log))[mid := Marker(from, to, pendingAt.value)] else old(Marked(log)))
    {
      hide Encode, SlotOf, Represents, Contents, Sound, Feed, Marked, Written;
      mid := GenerateMsgId();
      var batch := DmBatch(mid, from, to, msg, pendingAt);
      FeedAfter(log, DmSend(mid, from, to, msg, pendingAt));
      ApplySend(batch, DmSend(mid, from, to, msg, pendingAt));
    }

    // ---- markers ----

    method RemovePendingMarker(mid: I64)
      requires Valid()
      modifies this
      ensures Valid() && log == old(log) + [Unmark(mid)] && next == old(next) && leased == old(leased)
      ensures Marked(log) == old(Marked(log)) - {mid}
      ensures forall c :: Feed(log, c) == old(Feed(log, c))
    {
      hide Encode, Represents;
      RepresentsRemove(tree, Contents(log), Pending(mid));
      Snoc(log, Unmark(mid));
      FeedAfter(log, Unmark(mid));
      MidsAfter(log, Unmark(mid));
      assert Contents(log + [Unmark(mid)]) == Contents(log) - {Pending(mid)};
      tree := tree - {Encode(Pending(mid))};
      log := log + [Unmark(mid)];
    }

    /** A key of the marker family is a marker, and its key and value decode to what was written. */
    lemma MarkerEntry(key: Key) returns (m: I64)
      requires Valid() && key in tree && PENDING_TAG <= key
      ensures key == Encode(Pending(m)) && m in Marked(log)
      ensures DecodePending(key) == Some(m) && DecodeMarker(tree[key]) == Some(Marked(log)[m])
    {
      hide Encode, MarkerValue, DecodeMarker, DecodePending, Contents, Marked, Sound;
      var s := SlotOf(key).value;
      PendingFamily(s);
      m := s.mid;
      RepresentsGet(tree, Contents(log), s);
      MarkersAreMarked(log, m);
      DecodePendingEncoded(m);
      MarkerRoundTrip(Marked(log)[m]);
    }

    lemma MarkerStored(m: I64)
      requires Valid() && m in Marked(log)
      ensures Encode(Pending(m)) in tree && PENDING_TAG <= Encode(Pending(m))
    {
      hide Encode, Contents, Marked, Sound;
      MarkersAreMarked(log, m);
      RepresentsGet(tree, Contents(log), Pending(m));
      PendingFamily(Pending(m));
    }

    /** Every marker in the store, in id order; no key or value fails to decode. */
    method PendingMarkers() returns (markers: Result<seq<(I64, Marker)>, ()>)
      requires Valid()
      ensures markers.Ok?
      ensures forall i :: 0 <= i < |markers.value| ==>
        markers.value[i].0 in Marked(log) && Marked(log)[markers.value[i].0] == markers.value[i].1
      ensures forall m :: m in Marked(log) ==> exists i :: 0 <= i < |markers.value| && markers.value[i].0 == m
      ensures |markers.value| == |Marked(log)|
      ensures forall i, j :: 0 <= i < j < |markers.value| ==> markers.value[i].0 < markers.value[j].0
    {
      hide Encode, DecodeMarker, DecodePending, Contents, Marked, Sound, Represents;
      var range := set k | k in tree && PENDING_TAG <= k;
      var keys := Backwards(range);
      var out: seq<(I64, Marker)> := [];
      var i := |keys|;
      while i > 0
        invariant 0 <= i <= |keys| && |out| == |keys| - i
        invariant forall j :: 0 <= j < |out| ==>
          && out[j].0 in Marked(log) && Marked(log)[out[j].0] == out[j].1
          && keys[|keys| - 1 - j] == Encode(Pending(out[j].0))
      {
        i := i - 1;
        var key := keys[i];
        assert key in keys;
        ghost var m := MarkerEntry(key);
        var mid := DecodePending(key);
        if mid.None? { return Err(()); }
        var marker := DecodeMarker(tree[key]);
        if marker.None? { return Err(()); }
        out := out + [(mid.value, marker.value)];
      }
      markers := Ok(out);
      forall m | m in Marked(log) ensures exists j :: 0 <= j < |out| && out[j].0 == m {
        MarkerStored(m);
        assert Encode(Pending(m)) in keys;
        var k :| 0 <= k < |keys| && keys[k] == Encode(Pending(m));
        EncodeInjective(Pending(m), Pending(out[|keys| - 1 - k].0));
        assert out[|keys| - 1 - k].0 == m;
      }
      MarkersCount(out, keys, Marked(log));
      MarkedIds(log);
      MarkersAscend(out, keys);
    }

    // ---- scans ----

    /** A key inside the bounds of a conversation is one of its index entries. */
    lemma IndexEntry(key: Key, c: Conversation, lo: I64, hi: I64) returns (m: I64)
      requires Valid() && key in tree && Within(key, Encode(Indexed(c, lo)), Encode(Indexed(c, hi)))
      ensures key == Encode(Indexed(c, m)) && DecodeIndexed(c, key) == Some((c, m))
      ensures m in Feed(log, c) && tree[key] == Feed(log, c)[m]
    {
      hide Encode, Within, DecodeIndexed, Contents, Feed, Sound;
      var s := SlotOf(key).value;
      ScanSeesConversation(s, c, lo, hi);
      m := s.mid;
      DecodeIndexedEncoded(c, m);
      IndexIsFeed(log, c, m);
      RepresentsGet(tree, Contents(log), s);
    }

    /** A message of the conversation has an index entry, inside the bounds if its id is. */
    lemma IndexStored(m: I64, c: Conversation, lo: I64, hi: I64)
      requires Valid() && m in Feed(log, c)
      ensures 0 < m < I64_MAX && Encode(Indexed(c, m)) in tree
      ensures Within(Encode(Indexed(c, m)), Encode(Indexed(c, lo)), Encode(Indexed(c, hi))) <==>
        Bits(lo) <= Bits(m) < Bits(hi)
    {
      hide Encode, Within, Contents, Feed, Sound;
      FeedIds(log, c);
      IndexIsFeed(log, c, m);
      RepresentsGet(tree, Contents(log), Indexed(c, m));
      ScanSeesConversation(Indexed(c, m), c, lo, hi);
    }

    /**
     The backward range scan behind all four fetches: at most `limit` entries below `hi`,
     stopping early at a key that does not decode or belongs to someone else. Neither happens.
     */
    method ScanBack(c: Conversation, lo: I64, hi: I64, limit: nat) returns (msgs: seq<Message>)
      requires Valid()
      ensures IsNewest(msgs, Feed(log, c), Between(Feed(log, c), lo, hi), limit)
    {
      hide Encode, DecodeIndexed, Contents, Feed, Sound, Represents, Within, IsNewest;
      var range := set k | k in tree && Within(k, Encode(Indexed(c, lo)), Encode(Indexed(c, hi)));
      var keys := Backwards(range);
      var newestFirst: seq<Message> := [];
      var n := if |keys| < limit then |keys| else limit;
      var i := 0;
      while i < n
        invariant 0 <= i <= n && |newestFirst| == i
        invariant Taken(newestFirst, keys, c, Feed(log, c))
      {
        assert keys[i] in keys;
        ghost var m := IndexEntry(keys[i], c, lo, hi);
        var decoded := DecodeIndexed(c, keys[i]);
        if decoded.None? { break; }
        var (owner, mid) := decoded.value;
        if owner != c { break; }
        newestFirst := newestFirst + [(mid, tree[keys[i]])];
        i := i + 1;
      }
      msgs := Reversed(newestFirst);
      ghost var feed := Feed(log, c);
      ghost var within := Between(feed, lo, hi);
      forall m | m in feed ensures 0 < m && (Encode(Indexed(c, m)) in keys <==> m in within) {
        IndexStored(m, c, lo, hi);
      }
      ScanIsNewest(newestFirst, msgs, keys, c, feed, within, limit);
    }

    // ---- the four fetches ----

    method FetchUserMessagesAfter(uid: I64, after: Option<I64>, limit: nat) returns (msgs: seq<Message>)
      requires Valid()
      ensures IsNewest(msgs, Feed(log, User(uid)), NewerThan(Feed(log, User(uid)), after), limit)
    {
      hide Feed, Sound, Contents, Represents, IsNewest;
      var afterId: I64 := if after.Some? then Successor(after.value) else 0;
      msgs := ScanBack(User(uid), afterId, I64_MAX, limit);
      FeedIds(log, User(uid));
      assert Between(Feed(log, User(uid)), afterId, I64_MAX) == NewerThan(Feed(log, User(uid)), after);
    }

    method FetchBefore(c: Conversation, before: Option<I64>, limit: nat) returns (msgs: seq<Message>)
      requires Valid()
      ensures IsNewest(msgs, Feed(log, c), Before(Feed(log, c), before), limit)
    {
      hide Feed, Sound, Contents, Represents, IsNewest;
      var beforeId: I64 := if before.Some? then before.value else I64_MAX;
      msgs := ScanBack(c, 0, beforeId, limit);
      FeedIds(log, c);
      assert Between(Feed(log, c), 0, beforeId) == Before(Feed(log, c), before);
    }

    method FetchDmMessagesBefore(from: I64, to: I64, before: Option<I64>, limit: nat) returns (msgs: seq<Message>)
      requires Valid()
      ensures var feed := Feed(log, DmBetween(from, to)); IsNewest(msgs, feed, Before(feed, before), limit)
    {
      msgs := FetchBefore(DmBetween(from, to), before, limit);
    }

    method FetchGroupMessagesBefore(gid: I64, before: Option<I64>, limit: nat) returns (msgs: seq<Message>)
      requires Valid()
      ensures var feed := Feed(log, Group(gid)); IsNewest(msgs, feed, Before(feed, before), limit)
    {
      msgs := FetchBefore(Group(gid), before, limit);
    }

    method FetchUserMessagesBefore(uid: I64, before: Option<I64>, limit: nat) returns (msgs: seq<Message>)
      requires Valid()
      ensures var feed := Feed(log, User(uid)); IsNewest(msgs, feed, Before(feed, before), limit)
    {
      msgs := FetchBefore(User(uid), before, limit);
    }
  }

  lemma FeedIds(log: seq<Event>, c: Conversation)
    requires Sound(log)
    ensures forall m :: m in Feed(log, c) ==> 0 < m < I64_MAX
  {
    forall m | m in Feed(log, c) ensures 0 < m < I64_MAX {
      IndexIsFeed(log, c, m);
      StoredIdsAreMids(log, Indexed(c, m));
      SoundMids(log);
    }
  }

  lemma MarkersCount(out: seq<(I64, Marker)>, keys: seq<Key>, marked: map<I64, Marker>)
    requires |out| == |keys| && Descending(keys)
    requires forall j :: 0 <= j < |out| ==> keys[|keys| - 1 - j] == Encode(Pending(out[j].0))
    requires forall j :: 0 <= j < |out| ==> out[j].0 in marked
    requires forall m :: m in marked ==> exists j :: 0 <= j < |out| && out[j].0 == m
    ensures |out| == |marked|
  {
    hide Encode, Less;
    var mids := seq(|out|, j requires 0 <= j < |out| => out[j].0);
    forall i, j | 0 <= i < j < |mids| ensures mids[i] != mids[j] {
      LessIrreflexive(Encode(Pending(mids[i])));
    }
    DistinctCount(mids);
    assert Elements(mids) == marked.Keys by {
      forall m | m in marked ensures m in mids {
        var j :| 0 <= j < |out| && out[j].0 == m;
        assert mids[j] == m;
      }
    }
  }

  lemma MarkedIds(log: seq<Event>)
    requires Sound(log)
    ensures forall m :: m in Marked(log) ==> 0 < m
  {
    hide Contents, Marked, Sound, Mids;
    SoundMids(log);
    forall m | m in Marked(log) ensures 0 < m {
      MarkersAreMarked(log, m);
      StoredIdsAreMids(log, Pending(m));
    }
  }

  /** Marker keys from the greatest down are marker ids from the greatest down. */
  lemma MarkersAscend(out: seq<(I64, Marker)>, keys: seq<Key>)
    requires |out| == |keys| && Descending(keys)
    requires forall j :: 0 <= j < |out| ==> 0 < out[j].0 && keys[|keys| - 1 - j] == Encode(Pending(out[j].0))
    ensures forall i, j :: 0 <= i < j < |out| ==> out[i].0 < out[j].0
  {
    hide Less, ToBytes;
    forall i, j | 0 <= i < j < |out| ensures out[i].0 < out[j].0 {
      assert Less(keys[|keys| - 1 - i], keys[|keys| - 1 - j]);
      LessAfterPrefix(PENDING_TAG, ToBytes(out[i].0), ToBytes(out[j].0));
      BytesOrder(out[i].0, out[j].0);
    }
  }

  function Elements<T(==)>(s: seq<T>): set<T> {
    set x | x in s
  }

  lemma {:induction false} DistinctCount<T>(s: seq<T>)
    requires forall i, j :: 0 <= i < j < |s| ==> s[i] != s[j]
    ensures |Elements(s)| == |s|
  {
    if s != [] {
      DistinctCount(s[1..]);
      assert Elements(s) == {s[0]} + Elements(s[1..]);
    }
  }
}
