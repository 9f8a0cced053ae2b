/**
 The two stores of a deferred message side by side. The message and its marker are in the message
 store, whose crashes may lose a suffix of its log, leases included; the projected row is in the
 other store and survives. An id handed out again can then meet the row of a message that is gone.
 */
module LostWrites {
  import opened Wrappers
  import opened Bytes
  import opened Keys
  import J = Journal
  import D = DeferredDm

  datatype World = World(store: J.World, pending: map<I64, D.PendingRow>)

  datatype Step =
    | Store(step: J.Step)
    | Project(mid: I64)
    | Complete(mid: I64, now: int)

  function TablesOf(w: World): D.Tables {
    D.Tables(J.Marked(w.store.log), w.pending, map[], map[], {})
  }

  predicate Enabled(w: World, s: Step) {
    match s
    case Store(step) => J.Enabled(w.store, step)
    case Project(mid) => mid in J.Marked(w.store.log)
    case Complete(mid, _) => mid in w.pending
  }

  function Do(w: World, s: Step): World
    requires Enabled(w, s)
  {
    match s
    case Store(step) => w.(store := J.Do(w.store, step))
    case Project(mid) =>
      (match D.Project(TablesOf(w), mid, J.Marked(w.store.log)[mid])
       case Ok(t) => w.(pending := t.pending)
       case Err(_) => w)
    case Complete(mid, now) => w.(pending := w.pending[mid := w.pending[mid].(completedAt := Some(now))])
  }

  const Empty: World := World.World(J.Fresh, map[])

  function After(start: World, run: seq<Step>): Option<World> {
    if run == [] then Some(start)
    else
      match After(start, run[..|run| - 1])
      case None => None
      case Some(w) => if Enabled(w, run[|run| - 1]) then Some(Do(w, run[|run| - 1])) else None
  }

  // ---- rows and messages ----

  /** The deferred messages ever written to a log. */
  function Deferred(log: seq<J.Event>): map<I64, Marker> {
    if log == [] then map[]
    else
      var e := log[|log| - 1];
      var before := Deferred(log[..|log| - 1]);
      match e
      case DmSend(mid, sender, target, _, Some(at)) => before[mid := Marker(sender, target, at)]
      case _ => before
  }

  /** The marker of a message cannot be projected because the row of its id is of another sender or target. */
  predicate Conflicts(w: World, mid: I64) {
    var marked := J.Marked(w.store.log);
    mid in marked && D.Project(TablesOf(w), mid, marked[mid]) == Err(D.MetadataConflict)
  }

  lemma {:induction false} MarkedIsDeferred(log: seq<J.Event>, m: I64)
    requires m in J.Marked(log)
    ensures m in Deferred(log) && Deferred(log)[m] == J.Marked(log)[m]
  {
    var e, front := log[|log| - 1], log[..|log| - 1];
    if m in J.Marked(front) { MarkedIsDeferred(front, m); }
  }

  lemma {:induction false} DeferredIsSent(log: seq<J.Event>, m: I64)
    requires m in Deferred(log)
    ensures m in J.Mids(log)
  {
    var e, front := log[|log| - 1], log[..|log| - 1];
    if m in Deferred(front) { DeferredIsSent(front, m); }
  }

  /** What a prefix of a sound log says of a message, the whole log says. */
  lemma {:induction false} PrefixSaysTheSame(log: seq<J.Event>, k: nat, m: I64)
    requires J.Sound(log) && k <= |log| && m in J.Mids(log[..k])
    ensures m in J.Mids(log) && (m in Deferred(log) <==> m in Deferred(log[..k]))
    ensures m in Deferred(log) ==> Deferred(log)[m] == Deferred(log[..k])[m]
  {
    if k == |log| {
      assert log[..k] == log;
    } else {
      var front := log[..|log| - 1];
      assert front[..k] == log[..k];
      PrefixSaysTheSame(front, k, m);
    }
  }

  // ---- rows that stay behind do no harm while their ids are not due again ----

  /**
   Every row is that of the message stored under its id, or of a lost message whose id is below all
   that will be handed out.
   */
  predicate RowsAreOwn(w: World) {
    forall m :: m in w.pending ==>
      && m < J.NextId(w.store)
      && (m in J.Mids(w.store.log) ==>
            m in Deferred(w.store.log) && D.Same(w.pending[m], Deferred(w.store.log)[m]))
      && (w.store.server.Up? ==> m !in w.store.server.inFlight)
  }

  predicate Kept(w: World) {
    J.Invariant(w.store) && RowsAreOwn(w)
  }

  /** The crash leaves a counter that exceeds every projected id. */
  predicate CrashKeeps(w: World, kept: nat)
    requires kept <= |w.store.log|
  {
    forall m :: m in w.pending ==> m < J.Counter(w.store.log[..kept])
  }

  lemma OwnRowsDoNotConflict(w: World, mid: I64)
    requires Kept(w)
    ensures !Conflicts(w, mid)
  {
    if mid in J.Marked(w.store.log) {
      MarkedIsDeferred(w.store.log, mid);
      DeferredIsSent(w.store.log, mid);
    }
  }

  lemma CrashKeepsRows(w: World, kept: nat)
    requires Kept(w) && kept <= |w.store.log| && CrashKeeps(w, kept)
    ensures Kept(Do(w, Store(J.Crash(kept))))
  {
    J.InvariantStep(w.store, J.Crash(kept));
    hide J.Invariant;
    var log := w.store.log;
    forall m | m in w.pending && m in J.Mids(log[..kept])
      ensures m in Deferred(log[..kept]) && D.Same(w.pending[m], Deferred(log[..kept])[m])
    {
      assert J.Sound(log) by { SoundOf(w); }
      PrefixSaysTheSame(log, kept, m);
    }
  }

  lemma SoundOf(w: World)
    requires Kept(w)
    ensures J.Sound(w.store.log)
  {
  }

  /** A step of the store that is not a crash writes at most one event, and no send under the id of a row. */
  lemma StoreKeepsRows(w: World, s: J.Step)
    requires Kept(w) && J.Enabled(w.store, s) && !s.Crash?
    ensures Kept(Do(w, Store(s)))
  {
    J.InvariantStep(w.store, s);
    var w' := Do(w, Store(s));
    assert w'.store.log == w.store.log || w'.store.log[..|w'.store.log| - 1] == w.store.log by {
      hide J.Invariant;
    }
    if w'.store.log != w.store.log {
      J.MidsAfter(w.store.log, w'.store.log[|w.store.log|]);
    }
  }

  lemma ProjectKeepsRows(w: World, mid: I64)
    requires Kept(w) && mid in J.Marked(w.store.log)
    ensures Kept(Do(w, Project(mid)))
  {
    MarkedIsDeferred(w.store.log, mid);
    DeferredIsSent(w.store.log, mid);
    J.SoundMids(w.store.log);
  }

  /** A step keeps the rows, unless it is a crash that falls back behind one of them. */
  lemma StepKeepsRows(w: World, s: Step)
    requires Kept(w) && Enabled(w, s)
    requires s.Store? && s.step.Crash? ==> CrashKeeps(w, s.step.kept)
    ensures Kept(Do(w, s))
  {
    match s
    case Store(step) => if step.Crash? { CrashKeepsRows(w, step.kept); } else { StoreKeepsRows(w, step); }
    case Project(mid) => ProjectKeepsRows(w, mid);
    case Complete(_, _) =>
  }

  /** Every crash of the run keeps the counter above the ids projected by then. */
  predicate CrashesKeep(start: World, run: seq<Step>) {
    run == [] ||
    var front, last := run[..|run| - 1], run[|run| - 1];
    && CrashesKeep(start, front)
    && (After(start, front).Some? && last.Store? && last.step.Crash? && Enabled(After(start, front).value, last) ==>
          CrashKeeps(After(start, front).value, last.step.kept))
  }

  lemma {:induction false} KeptOfRun(start: World, run: seq<Step>)
    requires Kept(start) && After(start, run).Some? && CrashesKeep(start, run)
    ensures Kept(After(start, run).value)
  {
    hide Kept, Do, CrashKeeps;
    if run != [] {
      KeptOfRun(start, run[..|run| - 1]);
      StepKeepsRows(After(start, run[..|run| - 1]).value, run[|run| - 1]);
    }
  }

  lemma EmptyIsKept()
    ensures Kept(Empty)
  {
  }

  /**
   In every run whose crashes keep the counter above the projected ids, whatever else they lose: no
   marker conflicts with a row, and a send never writes under the id of one, so that no message
   inherits the completion or the envelopes of another.
   */
  lemma DurableLeasesNeverConflict(run: seq<Step>)
    requires After(Empty, run).Some? && CrashesKeep(Empty, run)
    ensures var w := After(Empty, run).value;
      && (forall mid :: !Conflicts(w, mid))
      && (forall e :: Enabled(w, Store(J.Commit(e))) ==> e.mid !in w.pending)
  {
    hide Kept, Conflicts, CrashesKeep;
    EmptyIsKept();
    KeptOfRun(Empty, run);
    var w := After(Empty, run).value;
    forall mid ensures !Conflicts(w, mid) { OwnRowsDoNotConflict(w, mid); }
    forall e | Enabled(w, Store(J.Commit(e))) ensures e.mid !in w.pending { CommitAvoidsRows(w, e); }
  }

  // ---- and a crash that falls back behind a row can be followed by a conflict ----

  predicate CrashFree(run: seq<Step>) {
    forall i :: 0 <= i < |run| ==> !(run[i].Store? && run[i].step.Crash?)
  }

  /** However the run goes on without another crash, no marker conflicts with a row. */
  ghost predicate NeverConflicts(w: World) {
    forall more, mid :: CrashFree(more) && After(w, more).Some? ==> !Conflicts(After(w, more).value, mid)
  }

  /** However the run goes on without another crash, no message is written under the id of a row. */
  ghost predicate NeverInherits(w: World) {
    forall more, e :: CrashFree(more) && After(w, more).Some? && Enabled(After(w, more).value, Store(J.Commit(e))) ==>
      e.mid !in After(w, more).value.pending
  }

  lemma {:induction false} CrashFreeKeeps(start: World, run: seq<Step>)
    requires CrashFree(run)
    ensures CrashesKeep(start, run)
  {
    if run != [] {
      var front := run[..|run| - 1];
      assert forall i :: 0 <= i < |front| ==> front[i] == run[i];
      CrashFreeKeeps(start, front);
      assert !(run[|run| - 1].Store? && run[|run| - 1].step.Crash?);
    }
  }

  lemma Extend(start: World, run: seq<Step>, s: Step)
    requires After(start, run).Some? && Enabled(After(start, run).value, s)
    ensures After(start, run + [s]) == Some(Do(After(start, run).value, s))
    ensures CrashFree(run) && !(s.Store? && s.step.Crash?) ==> CrashFree(run + [s])
  {
    assert (run + [s])[..|run + [s]| - 1] == run;
  }

  /** A running server can be brought to hand out any later id. */
  lemma {:induction false} ReachId(start: World, run: seq<Step>, m: I64) returns (longer: seq<Step>)
    requires After(start, run).Some? && CrashFree(run)
    requires var w := After(start, run).value;
      J.Invariant(w.store) && w.store.server.Up? && w.store.server.next <= m && m + J.SEQUENCE_BANDWIDTH < TWO_63
    ensures After(start, longer).Some? && CrashFree(longer)
    ensures var w, w' := After(start, run).value, After(start, longer).value;
      && w'.pending == w.pending && J.Invariant(w'.store)
      && w'.store.server.Up? && m in w'.store.server.inFlight
    decreases m - After(start, run).value.store.server.next
  {
    hide After, CrashFree;
    var w := After(start, run).value;
    IssueIsPossible(w.store, m);
    Extend(start, run, Store(J.Issue));
    J.InvariantStep(w.store, J.Issue);
    if w.store.server.next == m {
      longer := run + [Store(J.Issue)];
    } else {
      longer := ReachId(start, run + [Store(J.Issue)], m);
    }
  }

  lemma IssueIsPossible(w: J.World, m: I64)
    requires J.Invariant(w) && w.server.Up? && w.server.next <= m && m + J.SEQUENCE_BANDWIDTH < TWO_63
    ensures J.Enabled(w, J.Issue)
    ensures var w' := J.Do(w, J.Issue);
      w'.server.Up? && w'.server.next == w.server.next + 1 && w.server.next in w'.server.inFlight
  {
  }

  /** After a crash behind a row: restart and issue ids up to the row's. */
  lemma ReuseFollows(w: World, m: I64) returns (more: seq<Step>)
    requires J.Invariant(w.store) && w.store.server.Down? && m in w.pending
    requires J.Counter(w.store.log) <= m && m + J.SEQUENCE_BANDWIDTH < TWO_63
    ensures CrashFree(more) && After(w, more).Some? && After(w, more).value.pending == w.pending
    ensures J.Invariant(After(w, more).value.store)
    ensures After(w, more).value.store.server.Up? && m in After(w, more).value.store.server.inFlight
  {
    Nothing(w);
    Extend(w, [], Store(J.Open));
    J.InvariantStep(w.store, J.Open);
    more := ReachId(w, [] + [Store(J.Open)], m);
  }

  /** Then send under it, to or from somebody else. */
  lemma ConflictFollows(w: World, m: I64) returns (more: seq<Step>)
    requires J.Invariant(w.store) && w.store.server.Down? && m in w.pending
    requires J.Counter(w.store.log) <= m && m + J.SEQUENCE_BANDWIDTH < TWO_63
    ensures CrashFree(more) && After(w, more).Some? && Conflicts(After(w, more).value, m)
  {
    more := ReuseFollows(w, m);
    var w1 := After(w, more).value;
    var e := J.DmSend(m, if w.pending[m].sender == 0 then 1 else 0, 0, [], Some(0));
    hide After, CrashFree, J.Invariant;
    Extend(w, more, Store(J.Commit(e)));
    more := more + [Store(J.Commit(e))];
    J.Snoc(w1.store.log, e);
  }

  lemma Nothing(w: World)
    ensures After(w, []) == Some(w) && CrashFree([])
  {
  }

  /**
   Which crashes are harmless. At the end of any run whose crashes so far kept the counter above the
   projected ids, a further crash can lead to a conflict, or to a message that inherits the row of
   another, without yet another crash, if and only if it does not keep the counter above them:
   losing messages does no harm, losing their lease does.
   */
  lemma CrashIsHarmlessExactly(run: seq<Step>, kept: nat)
    requires After(Empty, run).Some? && CrashesKeep(Empty, run)
    requires var w := After(Empty, run).value;
      kept <= |w.store.log| && forall m :: m in w.pending ==> m + J.SEQUENCE_BANDWIDTH < TWO_63
    ensures var w := After(Empty, run).value;
      && (NeverConflicts(Do(w, Store(J.Crash(kept)))) <==> CrashKeeps(w, kept))
      && (NeverInherits(Do(w, Store(J.Crash(kept)))) <==> CrashKeeps(w, kept))
  {
    hide After, CrashesKeep, Conflicts, Kept;
    EmptyIsKept();
    KeptOfRun(Empty, run);
    var w := After(Empty, run).value;
    var crashed := Do(w, Store(J.Crash(kept)));
    if CrashKeeps(w, kept) {
      StepKeepsRows(w, Store(J.Crash(kept)));
      KeptStaysHarmless(crashed);
    } else {
      var m :| m in w.pending && m >= J.Counter(w.store.log[..kept]);
      StoreInvariant(w);
      J.InvariantStep(w.store, J.Crash(kept));
      LostLeaseHarms(crashed, m);
    }
  }

  lemma KeptStaysHarmless(w: World)
    requires Kept(w)
    ensures NeverConflicts(w) && NeverInherits(w)
  {
    hide After, Conflicts, Kept, CrashFree;
    forall more, mid | CrashFree(more) && After(w, more).Some? ensures !Conflicts(After(w, more).value, mid) {
      CrashFreeKeeps(w, more);
      KeptOfRun(w, more);
      OwnRowsDoNotConflict(After(w, more).value, mid);
    }
    forall more, e |
        CrashFree(more) && After(w, more).Some? && Enabled(After(w, more).value, Store(J.Commit(e)))
      ensures e.mid !in After(w, more).value.pending
    {
      CrashFreeKeeps(w, more);
      KeptOfRun(w, more);
      CommitAvoidsRows(After(w, more).value, e);
    }
  }

  lemma CommitAvoidsRows(w: World, e: J.Event)
    requires Kept(w) && Enabled(w, Store(J.Commit(e)))
    ensures e.mid !in w.pending
  {
    hide J.Sound, J.Mids, Deferred;
  }

  lemma LostLeaseHarms(w: World, m: I64)
    requires J.Invariant(w.store) && w.store.server.Down? && m in w.pending
    requires J.Counter(w.store.log) <= m && m + J.SEQUENCE_BANDWIDTH < TWO_63
    ensures !NeverConflicts(w) && !NeverInherits(w)
  {
    hide After, CrashFree, Conflicts, J.Invariant;
    var conflicting := ConflictFollows(w, m);
    var more := ReuseFollows(w, m);
    assert Enabled(After(w, more).value, Store(J.Commit(J.DmSend(m, 0, 0, [], Some(0)))));
  }

  lemma StoreInvariant(w: World)
    requires Kept(w)
    ensures J.Invariant(w.store)
  {
  }

  /** Such a crash can come at once: one message, projected, and a crash that loses the first lease. */
  lemma LosingTheLeaseDoesHarm() returns (run: seq<Step>)
    ensures After(Empty, run).Some? && CrashesKeep(Empty, run)
    ensures var crashed := Do(After(Empty, run).value, Store(J.Crash(0)));
      !NeverConflicts(crashed) && !NeverInherits(crashed)
  {
    var e := J.DmSend(1, 1, 2, [], Some(0));
    Nothing(Empty);
    Extend(Empty, [], Store(J.Open));
    run := [] + [Store(J.Open)];
    Extend(Empty, run, Store(J.Issue));
    run := run + [Store(J.Issue)];
    Extend(Empty, run, Store(J.Commit(e)));
    J.Snoc(After(Empty, run).value.store.log, e);
    run := run + [Store(J.Commit(e))];
    Extend(Empty, run, Project(1));
    run := run + [Project(1)];
    CrashFreeKeeps(Empty, run);
    var w := After(Empty, run).value;
    assert w.pending.Keys == {1};
    assert !CrashKeeps(w, 0) by { assert w.store.log[..0] == []; }
    CrashIsHarmlessExactly(run, 0);
  }
}
