/**
 The write log of the message store, and every run of the server over it.

 Each `Event` is one atomic write to the store. The store's contents are a function of the
 events written so far, so a crash that loses a suffix of the log leaves the contents of the
 remaining prefix. Ids are leased 32 at a time and the lease is itself an event.
 */
module Journal {
  import opened Wrappers
  import opened Bytes
  import opened Keys

  const SEQUENCE_BANDWIDTH: int := 32
  const MSG_SEQUENCE: Byte := 1

  datatype Event =
    | Lease(value: I64)
    | GroupSend(mid: I64, gid: I64, to: seq<I64>, msg: Key)
    | DmSend(mid: I64, sender: I64, target: I64, msg: Key, pendingAt: Option<I64>)
    | Unmark(mid: I64)
    | MergedPut(mid: I64, msg: Key)
    | MergedRemove(mid: I64)

  predicate IsSend(e: Event) {
    e.GroupSend? || e.DmSend?
  }

  /** The conversations whose index a sent message is entered in. */
  function Audience(e: Event): set<Conversation>
    requires IsSend(e)
  {
    match e
    case GroupSend(_, gid, to, _) => {Group(gid)} + set u | u in to :: User(u)
    case DmSend(_, sender, target, _, _) => {User(sender), User(target), DmBetween(sender, target)}
  }

  /** What one event writes, apart from removals. */
  function Written(e: Event): map<Slot, Key> {
    match e
    case Lease(v) => map[Sequence(MSG_SEQUENCE) := ToBytes(v)]
    case GroupSend(mid, _, _, msg) => SendEntries(e)
    case DmSend(mid, sender, target, msg, None) => SendEntries(e)
    case DmSend(mid, sender, target, msg, Some(at)) =>
      SendEntries(e)[Pending(mid) := MarkerValue(Marker(sender, target, at))]
    case Unmark(_) => map[]
    case MergedPut(mid, msg) => map[Merged(mid) := msg]
    case MergedRemove(_) => map[]
  }

  /** The canonical entry and the index entries of a message. */
  function SendSlots(e: Event): set<Slot>
    requires IsSend(e)
  {
    {Canonical(e.mid)} + set c | c in Audience(e) :: Indexed(c, e.mid)
  }

  function Entries(slots: set<Slot>, v: Key): map<Slot, Key> {
    map s | s in slots :: v
  }

  function SendEntries(e: Event): map<Slot, Key>
    requires IsSend(e)
  {
    Entries(SendSlots(e), e.msg)
  }

  function Removed(e: Event): set<Slot> {
    match e
    case Unmark(mid) => {Pending(mid)}
    case MergedRemove(mid) => {Merged(mid)}
    case _ => {}
  }

  /** The contents of the store after a log. */
  function Contents(log: seq<Event>): map<Slot, Key> {
    if log == [] then map[]
    else
      var e := log[|log| - 1];
      Contents(log[..|log| - 1]) - Removed(e) + Written(e)
  }

  // ---- three plain readings of a log ----

  /** The ids of the messages in a log. */
  function Mids(log: seq<Event>): set<I64> {
    if log == [] then {}
    else
      var e := log[|log| - 1];
      Mids(log[..|log| - 1]) + if IsSend(e) then {e.mid} else {}
  }

  /** The stored counter, 1 while nothing was ever stored. */
  function Counter(log: seq<Event>): I64 {
    if log == [] then 1
    else
      var e := log[|log| - 1];
      if e.Lease? then e.value else Counter(log[..|log| - 1])
  }

  /** One conversation as a plain log of messages by id. */
  function Feed(log: seq<Event>, c: Conversation): map<I64, Key> {
    if log == [] then map[]
    else
      var e := log[|log| - 1];
      var before := Feed(log[..|log| - 1], c);
      if IsSend(e) && c in Audience(e) then before[e.mid := e.msg] else before
  }

  /** The deferred messages still marked as awaiting projection. */
  function Marked(log: seq<Event>): map<I64, Marker> {
    if log == [] then map[]
    else
      var e := log[|log| - 1];
      var before := Marked(log[..|log| - 1]);
      match e
      case DmSend(mid, sender, target, _, Some(at)) => before[mid := Marker(sender, target, at)]
      case Unmark(mid) => before - {mid}
      case _ => before
  }

  lemma Snoc(log: seq<Event>, e: Event)
    ensures (log + [e])[..|log + [e]| - 1] == log
  {
  }

  /** The index of a conversation holds exactly its messages, with their bytes. */
  lemma {:induction false} IndexIsFeed(log: seq<Event>, c: Conversation, m: I64)
    ensures Indexed(c, m) in Contents(log) <==> m in Feed(log, c)
    ensures m in Feed(log, c) ==> Contents(log)[Indexed(c, m)] == Feed(log, c)[m]
  {
    if log != [] {
      IndexIsFeed(log[..|log| - 1], c, m);
      WrittenIndex(log[|log| - 1], c, m);
    }
  }

  lemma WrittenIndex(e: Event, c: Conversation, m: I64)
    ensures Indexed(c, m) in Written(e) <==> IsSend(e) && e.mid == m && c in Audience(e)
    ensures Indexed(c, m) in Written(e) ==> Written(e)[Indexed(c, m)] == e.msg
    ensures Indexed(c, m) !in Removed(e)
  {
  }

  lemma {:induction false} MarkersAreMarked(log: seq<Event>, m: I64)
    ensures Pending(m) in Contents(log) <==> m in Marked(log)
    ensures m in Marked(log) ==> Contents(log)[Pending(m)] == MarkerValue(Marked(log)[m])
  {
    if log != [] {
      MarkersAreMarked(log[..|log| - 1], m);
      WrittenMarker(log[|log| - 1], m);
      MarkedLast(log, m);
    }
  }

  lemma MarkedLast(log: seq<Event>, m: I64)
    requires log != []
    ensures var e, before := log[|log| - 1], Marked(log[..|log| - 1]);
      && (m in Marked(log) <==> Marks(e, m) || (m in before && e != Unmark(m)))
      && (m in Marked(log) ==>
            Marked(log)[m] == if Marks(e, m) then Marker(e.sender, e.target, e.pendingAt.value) else before[m])
  {
  }

  predicate Marks(e: Event, m: I64) {
    e.DmSend? && e.pendingAt.Some? && e.mid == m
  }

  lemma WrittenMarker(e: Event, m: I64)
    ensures Pending(m) in Written(e) <==> Marks(e, m)
    ensures Marks(e, m) ==> Written(e)[Pending(m)] == MarkerValue(Marker(e.sender, e.target, e.pendingAt.value))
    ensures Pending(m) in Removed(e) <==> e == Unmark(m)
  {
  }

  lemma WrittenCounter(e: Event)
    ensures Sequence(MSG_SEQUENCE) in Written(e) <==> e.Lease?
    ensures Sequence(MSG_SEQUENCE) !in Removed(e)
  {
  }

  lemma WrittenCanonical(e: Event, m: I64)
    ensures Canonical(m) in Written(e) <==> IsSend(e) && e.mid == m
    ensures Canonical(m) in Written(e) ==> Written(e)[Canonical(m)] == e.msg
    ensures Canonical(m) !in Removed(e)
  {
  }

  lemma {:induction false} StoredCounter(log: seq<Event>)
    ensures Sequence(1) in Contents(log) ==> Contents(log)[Sequence(1)] == ToBytes(Counter(log))
    ensures Sequence(1) !in Contents(log) ==> Counter(log) == 1
  {
    if log != [] {
      StoredCounter(log[..|log| - 1]);
      WrittenCounter(log[|log| - 1]);
    }
  }

  /** Every stored canonical, index or marker entry carries the id of a message in the log. */
  lemma {:induction false} StoredIdsAreMids(log: seq<Event>, s: Slot)
    requires s in Contents(log)
    requires s.Canonical? || s.Indexed? || s.Pending?
    ensures s.mid in Mids(log)
  {
    var e, front := log[|log| - 1], log[..|log| - 1];
    if s !in Written(e) {
      StoredIdsAreMids(front, s);
    }
  }

  /** The ids of the messages ever sent are exactly those under which a message is stored. */
  lemma {:induction false} MidsAreStored(log: seq<Event>, m: I64)
    ensures m in Mids(log) <==> Canonical(m) in Contents(log)
  {
    if log != [] {
      var e := log[|log| - 1];
      MidsAreStored(log[..|log| - 1], m);
      WrittenCanonical(e, m);
    }
  }

  /** The merged entry of a message is what was last put for it, and none once it was removed. */
  lemma MergedIsLastPut(log: seq<Event>, e: Event, m: I64)
    ensures var before, after := Contents(log), Contents(log + [e]);
      if e.MergedPut? && e.mid == m then Merged(m) in after && after[Merged(m)] == e.msg
      else if e == MergedRemove(m) then Merged(m) !in after
      else
        && (Merged(m) in after <==> Merged(m) in before)
        && (Merged(m) in before ==> after[Merged(m)] == before[Merged(m)])
  {
    Snoc(log, e);
    WrittenMerged(e, m);
  }

  lemma WrittenMerged(e: Event, m: I64)
    ensures Merged(m) in Written(e) <==> e.MergedPut? && e.mid == m
    ensures Merged(m) in Written(e) ==> Written(e)[Merged(m)] == e.msg
    ensures Merged(m) in Removed(e) <==> e == MergedRemove(m)
  {
    if e.GroupSend? || e.DmSend? { hide Audience; }
  }

  // ---- the invariant of every log ----

  /**
   At each point of the log the counter already stored exceeds every id used so far, and no
   id is used twice. The definition peels events off the end, so it holds of every prefix.
   */
  predicate Sound(log: seq<Event>) {
    log == [] ||
    (var front, e := log[..|log| - 1], log[|log| - 1];
     && Sound(front)
     && (IsSend(e) ==> 0 < e.mid < Counter(front) && e.mid !in Mids(front))
     && (e.Lease? ==> 0 < e.value && forall m :: m in Mids(front) ==> m < e.value))
  }

  lemma {:induction false} SoundPrefix(log: seq<Event>, k: nat)
    requires Sound(log) && k <= |log|
    ensures Sound(log[..k])
  {
    if k == |log| {
      assert log[..k] == log;
    } else {
      SoundPrefix(log[..|log| - 1], k);
      assert log[..|log| - 1][..k] == log[..k];
    }
  }

  lemma {:induction false} SoundMids(log: seq<Event>)
    requires Sound(log)
    ensures 0 < Counter(log)
    ensures forall m :: m in Mids(log) ==> 0 < m < Counter(log)
  {
    if log != [] {
      SoundMids(log[..|log| - 1]);
    }
  }

  // ---- the running server ----

  /** The in-memory allocator, and the ids handed to sends whose batch is not yet written. */
  datatype Server = Down | Up(next: I64, leased: I64, inFlight: set<I64>)

  /** A server with its log, and a tally of what has happened to it. */
  datatype World = World(log: seq<Event>, server: Server, issued: nat, largest: int, crashes: nat)

  datatype Step =
    | Open
    | Issue                       // a send takes its id
    | Commit(e: Event)            // a send writes its batch
    | Amend(e: Event)             // a marker or a merged message changes
    | Close                       // the store is dropped and releases its lease
    | Crash(kept: nat)            // memory is lost, and every event after the first `kept`

  const Fresh: World := World([], Down, 0, 0, 0)

  /** The next lease, if one is due, is still a 64-bit number. */
  predicate LeaseFits(log: seq<Event>, server: Server)
    requires server.Up?
  {
    server.next < server.leased || Counter(log) + SEQUENCE_BANDWIDTH < TWO_63
  }

  predicate Enabled(w: World, s: Step) {
    match s
    case Open => w.server.Down? && Counter(w.log) + SEQUENCE_BANDWIDTH < TWO_63
    case Issue =>
      w.server.Up? && LeaseFits(w.log, w.server) && Renewed(w.log, w.server.next, w.server.leased).1 < I64_MAX
    case Commit(e) => w.server.Up? && IsSend(e) && e.mid in w.server.inFlight
    case Amend(e) => w.server.Up? && (e.Unmark? || e.MergedPut? || e.MergedRemove?)
    case Close => w.server.Up? && w.server.inFlight == {}
    case Crash(kept) => kept <= |w.log|
  }

  /** The log and the allocator once a lease has been taken if one is due: `generate_id` up to its result. */
  function Renewed(log: seq<Event>, next: I64, leased: I64): (r: (seq<Event>, I64, I64))
    requires next < leased || Counter(log) + SEQUENCE_BANDWIDTH < TWO_63
  {
    if next >= leased then
      (log + [Lease(Counter(log) + SEQUENCE_BANDWIDTH)], Counter(log), Counter(log) + SEQUENCE_BANDWIDTH)
    else (log, next, leased)
  }

  function Do(w: World, s: Step): World
    requires Enabled(w, s)
  {
    match s
    case Open =>
      var next := Counter(w.log);
      w.(log := w.log + [Lease(next + SEQUENCE_BANDWIDTH)], server := Up(next, next + SEQUENCE_BANDWIDTH, {}))
    case Issue =>
      var (log, next, leased) := Renewed(w.log, w.server.next, w.server.leased);
      w.(log := log, server := Up(next + 1, leased, w.server.inFlight + {next}),
         issued := w.issued + 1, largest := if next > w.largest then next else w.largest)
    case Commit(e) =>
      w.(log := w.log + [e], server := w.server.(inFlight := w.server.inFlight - {e.mid}))
    case Amend(e) => w.(log := w.log + [e])
    case Close => w.(log := w.log + [Lease(w.server.next)], server := Down)
    case Crash(kept) =>
      w.(log := w.log[..kept], server := Down, crashes := w.crashes + 1)
  }

  /** Where a run ends; `None` if one of its steps was not possible. */
  function After(run: seq<Step>): Option<World> {
    if run == [] then Some(Fresh)
    else
      match After(run[..|run| - 1])
      case None => None
      case Some(w) => if Enabled(w, run[|run| - 1]) then Some(Do(w, run[|run| - 1])) else None
  }

  predicate Invariant(w: World) {
    && Sound(w.log)
    && (w.server.Up? ==>
          && 0 < w.server.next <= w.server.leased == Counter(w.log)
          && w.server.leased - w.server.next <= SEQUENCE_BANDWIDTH
          && (forall m :: m in Mids(w.log) ==> m < w.server.next)
          && (forall m :: m in w.server.inFlight ==> 0 < m < w.server.next && m !in Mids(w.log)))
  }

  /** The next id to hand out: from memory, or, when the server is down, from the stored counter. */
  function NextId(w: World): I64 {
    if w.server.Up? then w.server.next else Counter(w.log)
  }

  /**
   The ids handed out are bounded by the sends and 32 per crash, and so is what is due next. A
   counter that was ever stored, to which a crash may fall back, is at most one lease further.
   */
  predicate Lean(w: World) {
    && w.largest <= w.issued + SEQUENCE_BANDWIDTH * w.crashes
    && NextId(w) - 1 <= w.issued + SEQUENCE_BANDWIDTH * w.crashes
    && CountersAtMost(w.log, w.issued + SEQUENCE_BANDWIDTH * (w.crashes + 1))
  }

  predicate CountersAtMost(log: seq<Event>, bound: int) {
    forall k :: 0 <= k <= |log| ==> Counter(log[..k]) - 1 <= bound
  }

  // ---- every run ----

  lemma MidsAfter(log: seq<Event>, e: Event)
    ensures Mids(log + [e]) == Mids(log) + if IsSend(e) then {e.mid} else {}
    ensures Counter(log + [e]) == if e.Lease? then e.value else Counter(log)
    ensures Sound(log + [e]) <==>
      && Sound(log)
      && (IsSend(e) ==> 0 < e.mid < Counter(log) && e.mid !in Mids(log))
      && (e.Lease? ==> 0 < e.value && forall m :: m in Mids(log) ==> m < e.value)
  {
    Snoc(log, e);
  }

  /** Taking a lease keeps the log sound and leaves the next id above every stored one. */
  lemma RenewedIsSound(log: seq<Event>, next: I64, leased: I64)
    requires Sound(log) && 0 < next <= leased == Counter(log)
    requires leased - next <= SEQUENCE_BANDWIDTH
    requires next < leased || Counter(log) + SEQUENCE_BANDWIDTH < TWO_63
    ensures var (log', next', leased') := Renewed(log, next, leased);
      && Sound(log') && Mids(log') == Mids(log)
      && next' == next < leased' == Counter(log') && leased' - next' <= SEQUENCE_BANDWIDTH
  {
    hide Sound, Mids, Counter;
    SoundMids(log);
    if next >= leased {
      MidsAfter(log, Lease(Counter(log) + SEQUENCE_BANDWIDTH));
    }
  }

  lemma IssueKeepsInvariant(w: World)
    requires Invariant(w) && Enabled(w, Issue)
    ensures Invariant(Do(w, Issue))
  {
    RenewedIsSound(w.log, w.server.next, w.server.leased);
  }

  lemma CommitKeepsInvariant(w: World, e: Event)
    requires Invariant(w) && Enabled(w, Commit(e))
    ensures Invariant(Do(w, Commit(e)))
  {
    MidsAfter(w.log, e);
  }

  lemma OpenKeepsInvariant(w: World)
    requires Invariant(w) && Enabled(w, Open)
    ensures Invariant(Do(w, Open))
  {
    SoundMids(w.log);
    MidsAfter(w.log, Lease(Counter(w.log) + SEQUENCE_BANDWIDTH));
  }

  lemma CloseKeepsInvariant(w: World)
    requires Invariant(w) && Enabled(w, Close)
    ensures Invariant(Do(w, Close))
  {
    MidsAfter(w.log, Lease(w.server.next));
  }

  lemma AmendKeepsInvariant(w: World, e: Event)
    requires Invariant(w) && Enabled(w, Amend(e))
    ensures Invariant(Do(w, Amend(e)))
  {
    MidsAfter(w.log, e);
  }

  lemma InvariantStep(w: World, s: Step)
    requires Invariant(w) && Enabled(w, s)
    ensures Invariant(Do(w, s))
  {
    match s
    case Open => OpenKeepsInvariant(w);
    case Issue => IssueKeepsInvariant(w);
    case Commit(e) => CommitKeepsInvariant(w, e);
    case Amend(e) => AmendKeepsInvariant(w, e);
    case Close => CloseKeepsInvariant(w);
    case Crash(kept) => SoundPrefix(w.log, kept);
  }

  lemma FreshIsSound()
    ensures Invariant(Fresh)
  {
  }

  lemma {:induction false} InvariantOfRun(run: seq<Step>)
    requires After(run).Some?
    ensures Invariant(After(run).value)
  {
    hide Invariant, Do, Enabled;
    if run == [] {
      FreshIsSound();
    } else {
      InvariantOfRun(run[..|run| - 1]);
      InvariantStep(After(run[..|run| - 1]).value, run[|run| - 1]);
    }
  }

  /**
   Whatever opens, sends, clean shutdowns and crashes came before, and whatever suffix of the
   log each crash lost, a send writes only entries that are not in the store.
   */
  lemma SendNeverOverwrites(run: seq<Step>, e: Event)
    requires After(run).Some? && Enabled(After(run).value, Commit(e))
    ensures e.mid !in Mids(After(run).value.log)
    ensures forall s :: s in SendSlots(e) + {Pending(e.mid)} ==> s !in Contents(After(run).value.log)
  {
    var w := After(run).value;
    InvariantOfRun(run);
    forall s | s in SendSlots(e) + {Pending(e.mid)} && s in Contents(w.log) ensures false {
      StoredIdsAreMids(w.log, s);
    }
  }

  lemma AppendKeepsMessage(log: seq<Event>, e: Event, m: I64)
    requires Canonical(m) in Contents(log)
    requires IsSend(e) ==> e.mid !in Mids(log)
    ensures Canonical(m) in Contents(log + [e]) && Contents(log + [e])[Canonical(m)] == Contents(log)[Canonical(m)]
  {
    Snoc(log, e);
    StoredIdsAreMids(log, Canonical(m));
    WrittenCanonical(e, m);
  }

  predicate KeepsMessage(before: map<Slot, Key>, after: map<Slot, Key>, m: I64) {
    Canonical(m) in before ==> Canonical(m) in after && after[Canonical(m)] == before[Canonical(m)]
  }

  lemma CrashKeepsBytes(w: World, kept: nat, m: I64)
    requires Invariant(w) && kept <= |w.log|
    ensures KeepsMessage(Contents(w.log[..kept]), Contents(w.log), m)
  {
    if Canonical(m) in Contents(w.log[..kept]) {
      CanonicalInPrefix(w.log, kept, m);
    }
  }

  lemma StepKeepsMessage(w: World, s: Step, m: I64)
    requires Invariant(w) && Enabled(w, s) && !s.Crash?
    ensures KeepsMessage(Contents(w.log), Contents(Do(w, s).log), m)
  {
    if Canonical(m) in Contents(w.log) {
      match s
      case Open => AppendKeepsMessage(w.log, Lease(Counter(w.log) + SEQUENCE_BANDWIDTH), m);
      case Issue =>
        if w.server.next >= w.server.leased {
          AppendKeepsMessage(w.log, Lease(Counter(w.log) + SEQUENCE_BANDWIDTH), m);
        }
      case Commit(e) => AppendKeepsMessage(w.log, e, m);
      case Amend(e) => AppendKeepsMessage(w.log, e, m);
      case Close => AppendKeepsMessage(w.log, Lease(w.server.next), m);
    }
  }

  /** Every step but a crash keeps a stored message and its bytes; a crash may lose it, not change it. */
  lemma StoredMessageIsPermanent(run: seq<Step>, s: Step, m: I64)
    requires After(run).Some? && Enabled(After(run).value, s)
    ensures var before, after := Contents(After(run).value.log), Contents(Do(After(run).value, s).log);
      if s.Crash? then KeepsMessage(after, before, m) else KeepsMessage(before, after, m)
  {
    InvariantOfRun(run);
    if s.Crash? {
      CrashKeepsBytes(After(run).value, s.kept, m);
    } else {
      StepKeepsMessage(After(run).value, s, m);
    }
  }

  lemma {:induction false} CanonicalInPrefix(log: seq<Event>, k: nat, m: I64)
    requires Sound(log) && k <= |log|
    requires Canonical(m) in Contents(log[..k])
    ensures Canonical(m) in Contents(log) && Contents(log)[Canonical(m)] == Contents(log[..k])[Canonical(m)]
  {
    if k == |log| {
      assert log[..k] == log;
    } else {
      var front, e := log[..|log| - 1], log[|log| - 1];
      assert front[..k] == log[..k];
      CanonicalInPrefix(front, k, m);
      StoredIdsAreMids(front, Canonical(m));
      WrittenCanonical(e, m);
    }
  }

  lemma CountersAfter(log: seq<Event>, e: Event, bound: int, bound': int)
    requires CountersAtMost(log, bound) && bound <= bound'
    requires e.Lease? ==> e.value - 1 <= bound'
    ensures CountersAtMost(log + [e], bound')
  {
    hide Counter;
    assert log[..|log|] == log;
    forall k | 0 <= k <= |log + [e]| ensures Counter((log + [e])[..k]) - 1 <= bound' {
      if k <= |log| {
        assert (log + [e])[..k] == log[..k];
      } else {
        assert (log + [e])[..k] == log + [e];
        MidsAfter(log, e);
        assert Counter(log[..|log|]) - 1 <= bound;
      }
    }
  }

  lemma CountersOfPrefix(log: seq<Event>, kept: nat, bound: int, bound': int)
    requires CountersAtMost(log, bound) && bound <= bound' && kept <= |log|
    ensures CountersAtMost(log[..kept], bound') && Counter(log[..kept]) - 1 <= bound
  {
    hide Counter;
    forall k | 0 <= k <= kept ensures Counter(log[..kept][..k]) - 1 <= bound' {
      assert log[..kept][..k] == log[..k];
    }
  }

  lemma LeanStep(w: World, s: Step)
    requires Invariant(w) && Lean(w) && Enabled(w, s)
    ensures Lean(Do(w, s))
  {
    hide CountersAtMost, Sound, Mids;
    var w' := Do(w, s);
    var bound := w.issued + SEQUENCE_BANDWIDTH * (w.crashes + 1);
    var bound' := w'.issued + SEQUENCE_BANDWIDTH * (w'.crashes + 1);
    match s
    case Issue =>
      if w.server.next >= w.server.leased {
        CountersAfter(w.log, w'.log[|w.log|], bound, bound');
      } else {
        CountersOfPrefix(w.log, |w.log|, bound, bound');
        assert w.log[..|w.log|] == w.log;
      }
    case Crash(kept) => CountersOfPrefix(w.log, kept, bound, bound');
    case _ =>
      var e := w'.log[|w.log|];
      MidsAfter(w.log, e);
      CountersAfter(w.log, e, bound, bound');
  }

  lemma FreshIsLean()
    ensures Lean(Fresh)
  {
  }

  lemma {:induction false} LeanRun(run: seq<Step>)
    requires After(run).Some?
    ensures Lean(After(run).value)
  {
    hide Lean, Invariant, Do, Enabled;
    if run == [] {
      FreshIsLean();
    } else {
      var front := run[..|run| - 1];
      LeanRun(front);
      InvariantOfRun(front);
      LeanStep(After(front).value, run[|run| - 1]);
    }
  }

  function Issues(run: seq<Step>): nat {
    if run == [] then 0 else Issues(run[..|run| - 1]) + if run[|run| - 1].Issue? then 1 else 0
  }

  function Crashes(run: seq<Step>): nat {
    if run == [] then 0 else Crashes(run[..|run| - 1]) + if run[|run| - 1].Crash? then 1 else 0
  }

  lemma {:induction false} TalliesCount(run: seq<Step>)
    requires After(run).Some?
    ensures After(run).value.issued == Issues(run) && After(run).value.crashes == Crashes(run)
  {
    if run != [] { TalliesCount(run[..|run| - 1]); }
  }

  /** Over every run, whatever its crashes lose, the largest id is at most the ids issued plus 32 for each crash. */
  lemma LargestIdIsBounded(run: seq<Step>)
    requires After(run).Some?
    ensures After(run).value.largest <= Issues(run) + 32 * Crashes(run)
  {
    hide After;
    LeanRun(run);
    TalliesCount(run);
  }

  /** Whatever the run before, crashes included: a clean shutdown and a restart continue at the id due next. */
  lemma ReopeningContinues(run: seq<Step>)
    requires After(run).Some? && After(run).value.server.Up? && After(run).value.server.inFlight == {}
    requires After(run).value.server.next + 32 < TWO_63
    ensures After(run + [Close, Open]).Some? && After(run + [Close, Open]).value.server.Up?
    ensures After(run + [Close, Open]).value.server.next == After(run).value.server.next
  {
    InvariantOfRun(run);
    var w := After(run).value;
    Snoc(w.log, Lease(w.server.next));
    assert run + [Close, Open] == run + [Close] + [Open];
    assert (run + [Close])[..|run|] == run;
    assert (run + [Close] + [Open])[..|run| + 1] == run + [Close];
  }

  lemma {:induction false} NoIdSkipped(run: seq<Step>)
    requires After(run).Some? && After(run).value.crashes == 0
    ensures After(run).value.largest == After(run).value.issued == NextId(After(run).value) - 1
  {
    if run != [] {
      var front := run[..|run| - 1];
      NoIdSkipped(front);
      InvariantOfRun(front);
      hide Invariant;
      NothingSkippedByStep(After(front).value, run[|run| - 1]);
    }
  }

  lemma NothingSkippedByStep(w: World, s: Step)
    requires Invariant(w) && Enabled(w, s) && !s.Crash? && w.largest == w.issued == NextId(w) - 1
    ensures Do(w, s).largest == Do(w, s).issued == NextId(Do(w, s)) - 1
  {
    hide Sound, Mids;
    if s.Open? || s.Close? {
      MidsAfter(w.log, Do(w, s).log[|w.log|]);
    }
  }

  /**
   Clean shutdowns skip no id: without a crash, however often the server is restarted, the ids
   issued are 1, 2, .. in this order, so that the next one is one more than their number.
   */
  lemma CleanShutdownSkipsNothing(run: seq<Step>)
    requires After(run).Some? && Crashes(run) == 0
    ensures var w := After(run).value;
      && w.largest == Issues(run)
      && (Enabled(w, Issue) ==>
            && Do(w, Issue).server.inFlight == w.server.inFlight + {Issues(run) + 1}
            && Do(w, Issue).largest == Issues(run) + 1)
  {
    hide After, Invariant;
    TalliesCount(run);
    NoIdSkipped(run);
    InvariantOfRun(run);
    if Enabled(After(run).value, Issue) { IssuesNext(After(run).value); }
  }

  lemma IssuesNext(w: World)
    requires Invariant(w) && Enabled(w, Issue)
    ensures Do(w, Issue).server.inFlight == w.server.inFlight + {w.server.next}
    ensures Do(w, Issue).largest == if w.server.next > w.largest then w.server.next else w.largest
  {
  }

  /** A running server takes every amendment, and any batch of a send it gave the id to; both are then in the log. */
  lemma WritesAreLogged(w: World, e: Event)
    requires w.server.Up? && (if IsSend(e) then e.mid in w.server.inFlight else !e.Lease?)
    ensures var s := if IsSend(e) then Commit(e) else Amend(e);
      Enabled(w, s) && Do(w, s).log == w.log + [e]
  {
  }

  /** While the next lease fits, a send gets an id that no stored and no unfinished send has. */
  lemma IssuedIdIsNew(w: World)
    requires Invariant(w) && w.server.Up? && LeaseFits(w.log, w.server)
    ensures Enabled(w, Issue)
    ensures var mid := Do(w, Issue).server.next - 1;
      && mid !in Mids(w.log) && mid !in w.server.inFlight
      && Do(w, Issue).server.inFlight == w.server.inFlight + {mid}
  {
  }
}
