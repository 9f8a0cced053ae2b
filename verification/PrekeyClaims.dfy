/**
 Concurrent claims on one device's pool of one-time prekeys.

 A call peeks the lowest unconsumed row, wraps the content key with it and only then claims the
 row; if another call was faster it starts over, at most eight times, and then wraps without a
 one-time prekey. Calls interleave at these three points, and the device may replace its
 unconsumed prekeys at any time.
 */
module PrekeyClaims {
  import opened Wrappers

  const MAX_CLAIM_RETRIES: nat := 8

  type Row = nat
  type CallId = nat

  /** How a call ended. `Fallback` is the wrap without a prekey after eight lost claims. */
  datatype Outcome = WrapFailed | Wrapped(otp: Option<Row>) | Fallback(ok: bool)

  datatype Phase =
    | Peeking
    | Claiming(row: Row, seen: nat)   // `seen`: how much had happened when the row was peeked
    | Done(outcome: Outcome)

  /** A call that began when `since` things had happened and has lost `lost` claims. */
  datatype Call = Call(phase: Phase, lost: nat, since: nat)

  /** What changed the pool: a row was claimed by a call, or the unconsumed rows were replaced. */
  datatype Act = Claimed(row: Row, call: CallId) | Replaced

  /** The rows of the pool, true if consumed; ids are never used twice. */
  datatype World = World(rows: map<Row, bool>, nextId: Row, calls: map<CallId, Call>, acts: seq<Act>)

  datatype Step =
    | Begin(call: CallId)
    | Peek(call: CallId, wraps: bool)
    | Claim(call: CallId)
    | GiveUp(call: CallId, wraps: bool)
    | Replace(count: nat)

  function Available(rows: map<Row, bool>): set<Row> {
    set r | r in rows && !rows[r]
  }

  /** `order by id asc limit 1`. */
  ghost predicate IsLowest(r: Row, s: set<Row>) {
    r in s && forall q :: q in s ==> r <= q
  }

  lemma {:induction false} LowestExists(s: set<Row>)
    requires s != {}
    ensures exists r :: IsLowest(r, s)
    decreases |s|
  {
    var r :| r in s;
    if s == {r} {
      assert IsLowest(r, s);
    } else {
      LowestExists(s - {r});
      var q :| IsLowest(q, s - {r});
      var m := if q < r then q else r;
      assert forall x :: x in s ==> x == r || x in s - {r};
      assert IsLowest(m, s);
    }
  }

  ghost function Lowest(s: set<Row>): (r: Row)
    requires s != {}
    ensures IsLowest(r, s)
  {
    LowestExists(s);
    var r :| IsLowest(r, s);
    r
  }

  predicate Enabled(w: World, s: Step) {
    match s
    case Begin(c) => c !in w.calls
    case Peek(c, _) => c in w.calls && w.calls[c].phase.Peeking? && w.calls[c].lost < MAX_CLAIM_RETRIES
    case Claim(c) => c in w.calls && w.calls[c].phase.Claiming?
    case GiveUp(c, _) => c in w.calls && w.calls[c].phase.Peeking? && w.calls[c].lost >= MAX_CLAIM_RETRIES
    case Replace(_) => true
  }

  /** Newly inserted rows. */
  function Unconsumed(from: Row, count: nat): (m: map<Row, bool>)
    ensures forall r :: r in m <==> from <= r < from + count
    ensures forall r :: r in m ==> !m[r]
  {
    if count == 0 then map[] else Unconsumed(from, count - 1)[from + count - 1 := false]
  }

  ghost function Do(w: World, s: Step): World
    requires Enabled(w, s)
  {
    match s
    case Begin(c) => w.(calls := w.calls[c := Call(Peeking, 0, |w.acts|)])
    case Peek(c, wraps) =>
      var phase :=
        if !wraps then Done(WrapFailed)
        else if Available(w.rows) == {} then Done(Wrapped(None))
        else Claiming(Lowest(Available(w.rows)), |w.acts|);
      w.(calls := w.calls[c := w.calls[c].(phase := phase)])
    case Claim(c) =>
      var row := w.calls[c].phase.row;
      // update ... set consumed = true where id = ? and consumed = false
      if row in w.rows && !w.rows[row] then
        w.(rows := w.rows[row := true], acts := w.acts + [Claimed(row, c)],
           calls := w.calls[c := w.calls[c].(phase := Done(Wrapped(Some(row))))])
      else
        w.(calls := w.calls[c := w.calls[c].(phase := Peeking, lost := w.calls[c].lost + 1)])
    case GiveUp(c, wraps) => w.(calls := w.calls[c := w.calls[c].(phase := Done(Fallback(wraps)))])
    case Replace(count) =>
      w.(rows := (map r | r in w.rows && w.rows[r] :: true) + Unconsumed(w.nextId, count),
         nextId := w.nextId + count, acts := w.acts + [Replaced])
  }

  /** A pool nobody is using yet; rows may have been consumed long ago. */
  predicate Start(w: World) {
    w.calls == map[] && w.acts == [] && forall r :: r in w.rows ==> r < w.nextId
  }

  ghost function After(start: World, run: seq<Step>): Option<World> {
    if run == [] then Some(start)
    else
      match After(start, run[..|run| - 1])
      case None => None
      case Some(w) => if Enabled(w, run[|run| - 1]) then Some(Do(w, run[|run| - 1])) else None
  }

  // ---- what has happened ----

  /** The row a call returned an envelope with, if any. */
  function RowOf(w: World, c: CallId): Option<Row> {
    if c in w.calls && w.calls[c].phase.Done? && w.calls[c].phase.outcome.Wrapped? then w.calls[c].phase.outcome.otp
    else None
  }

  /** The rows claimed, and the calls that claimed them, in a stretch of history. */
  function ClaimedRows(acts: seq<Act>): set<Row> {
    set i | 0 <= i < |acts| && acts[i].Claimed? :: acts[i].row
  }

  function Claimers(acts: seq<Act>): set<CallId> {
    set i | 0 <= i < |acts| && acts[i].Claimed? :: acts[i].call
  }

  function Replacements(acts: seq<Act>): nat {
    if acts == [] then 0
    else Replacements(acts[..|acts| - 1]) + if acts[|acts| - 1].Replaced? then 1 else 0
  }

  /** No row and no call appears twice among the claims. */
  predicate EachOnce(acts: seq<Act>) {
    forall i, j :: 0 <= i < j < |acts| && acts[i].Claimed? && acts[j].Claimed? ==>
      acts[i].row != acts[j].row && acts[i].call != acts[j].call
  }

  predicate Invariant(w: World) {
    && EachOnce(w.acts)
    && (forall r :: r in w.rows ==> r < w.nextId)
    && (forall i :: 0 <= i < |w.acts| && w.acts[i].Claimed? ==>
          && w.acts[i].row in w.rows && w.rows[w.acts[i].row]
          && RowOf(w, w.acts[i].call) == Some(w.acts[i].row))
    && (forall c :: c in w.calls && RowOf(w, c).Some? ==> Claimed(RowOf(w, c).value, c) in w.acts)
    && (forall c :: c in w.calls ==> CallFacts(w, w.calls[c]))
  }

  /** Each lost claim has its own act, later than the start of the call and before its next peek. */
  predicate CallFacts(w: World, call: Call) {
    && call.lost <= MAX_CLAIM_RETRIES
    && call.since + call.lost <= |w.acts|
    && (call.phase == Done(Fallback(true)) || call.phase == Done(Fallback(false)) ==> call.lost == MAX_CLAIM_RETRIES)
    && (call.phase.Claiming? ==>
          && call.lost < MAX_CLAIM_RETRIES
          && call.since + call.lost <= call.phase.seen <= |w.acts|
          && call.phase.row < w.nextId
          && (call.phase.seen == |w.acts| ==> call.phase.row in w.rows && !w.rows[call.phase.row]))
  }

  // ---- every step keeps it ----

  /** A step that only moves one call, without giving it a row, keeps what the claims say. */
  lemma MoveKeepsInvariant(w: World, c: CallId, call: Call)
    requires Invariant(w) && RowOf(w, c).None?
    requires call.phase.Done? && call.phase.outcome.Wrapped? ==> call.phase.outcome.otp.None?
    requires CallFacts(w, call)
    ensures Invariant(w.(calls := w.calls[c := call]))
  {
    var w' := w.(calls := w.calls[c := call]);
    assert forall d :: RowOf(w', d) == RowOf(w, d);
    forall d | d in w'.calls ensures CallFacts(w', w'.calls[d]) {
      assert d != c ==> CallFacts(w, w.calls[d]);
    }
  }

  lemma PeekKeepsInvariant(w: World, c: CallId, wraps: bool)
    requires Invariant(w) && Enabled(w, Peek(c, wraps))
    ensures Invariant(Do(w, Peek(c, wraps)))
  {
    hide Invariant;
    assert CallFacts(w, w.calls[c]) && RowOf(w, c).None? && (forall r :: r in w.rows ==> r < w.nextId) by {
      FactsOf(w, c);
    }
    MoveKeepsInvariant(w, c, Do(w, Peek(c, wraps)).calls[c]);
  }

  lemma FactsOf(w: World, c: CallId)
    requires Invariant(w) && c in w.calls
    ensures CallFacts(w, w.calls[c]) && forall r :: r in w.rows ==> r < w.nextId
  {
  }

  lemma LostClaimKeepsInvariant(w: World, c: CallId)
    requires Invariant(w) && Enabled(w, Claim(c))
    requires !(w.calls[c].phase.row in w.rows && !w.rows[w.calls[c].phase.row])
    ensures Invariant(Do(w, Claim(c)))
  {
    hide Invariant;
    FactsOf(w, c);
    MoveKeepsInvariant(w, c, Do(w, Claim(c)).calls[c]);
  }

  /** What the claims say after a row is claimed; the facts of the other calls only get slack. */
  lemma WonClaimKeepsInvariant(w: World, c: CallId)
    requires Invariant(w) && Enabled(w, Claim(c))
    requires w.calls[c].phase.row in w.rows && !w.rows[w.calls[c].phase.row]
    ensures Invariant(Do(w, Claim(c)))
  {
    var w' := Do(w, Claim(c));
    var row := w.calls[c].phase.row;
    assert w'.acts[|w.acts|] == Claimed(row, c);
    assert forall d :: d != c ==> RowOf(w', d) == RowOf(w, d);
    forall d | d in w'.calls ensures CallFacts(w', w'.calls[d]) {
      assert CallFacts(w, w.calls[d]);
    }
    forall d | d in w'.calls && RowOf(w', d).Some? ensures Claimed(RowOf(w', d).value, d) in w'.acts {
      assert d != c ==> Claimed(RowOf(w, d).value, d) in w.acts;
    }
  }

  lemma ReplaceKeepsInvariant(w: World, count: nat)
    requires Invariant(w)
    ensures Invariant(Do(w, Replace(count)))
  {
    var w' := Do(w, Replace(count));
    assert forall d :: RowOf(w', d) == RowOf(w, d);
    forall d | d in w'.calls ensures CallFacts(w', w'.calls[d]) {
      assert CallFacts(w, w.calls[d]);
    }
    forall i | 0 <= i < |w'.acts| && w'.acts[i].Claimed?
      ensures w'.acts[i].row in w'.rows && w'.rows[w'.acts[i].row]
    {
      assert w'.acts[i] == w.acts[i];
    }
  }

  lemma InvariantStep(w: World, s: Step)
    requires Invariant(w) && Enabled(w, s)
    ensures Invariant(Do(w, s))
  {
    hide Invariant;
    match s
    case Begin(c) => MoveKeepsInvariant(w, c, Call(Peeking, 0, |w.acts|));
    case Peek(c, wraps) => PeekKeepsInvariant(w, c, wraps);
    case Claim(c) =>
      if w.calls[c].phase.row in w.rows && !w.rows[w.calls[c].phase.row] {
        WonClaimKeepsInvariant(w, c);
      } else {
        LostClaimKeepsInvariant(w, c);
      }
    case GiveUp(c, wraps) =>
      FactsOf(w, c);
      MoveKeepsInvariant(w, c, Do(w, s).calls[c]);
    case Replace(count) => ReplaceKeepsInvariant(w, count);
  }

  lemma {:induction false} InvariantOfRun(start: World, run: seq<Step>)
    requires Start(start) && After(start, run).Some?
    ensures Invariant(After(start, run).value)
  {
    if run != [] {
      InvariantOfRun(start, run[..|run| - 1]);
      InvariantStep(After(start, run[..|run| - 1]).value, run[|run| - 1]);
    }
  }

  // ---- one prekey, one envelope ----

  /**
   However calls interleave with each other and with replacements of the pool: two envelopes
   never share a row; the rows claimed so far are as many as the envelopes returned with one;
   and a call that returned none claimed nothing.
   */
  lemma EnvelopesUseDistinctRows(start: World, run: seq<Step>)
    requires Start(start) && After(start, run).Some?
    ensures var w := After(start, run).value;
      && (forall c, d :: c in w.calls && d in w.calls && c != d && RowOf(w, c).Some? ==> RowOf(w, c) != RowOf(w, d))
      && |ClaimedRows(w.acts)| == |Holders(w)|
      && Claimers(w.acts) == Holders(w)
      && (forall r :: r in ClaimedRows(w.acts) ==> r in w.rows && w.rows[r])
  {
    hide After;
    InvariantOfRun(start, run);
    HoldersDiffer(After(start, run).value);
    HoldersAreClaimers(After(start, run).value);
    ClaimCounts(After(start, run).value.acts);
  }

  lemma HoldersDiffer(w: World)
    requires Invariant(w)
    ensures forall c, d :: c in w.calls && d in w.calls && c != d && RowOf(w, c).Some? ==> RowOf(w, c) != RowOf(w, d)
  {
    hide RowOf, CallFacts;
    forall c, d | c in w.calls && d in w.calls && c != d && RowOf(w, c).Some? && RowOf(w, d).Some?
      ensures RowOf(w, c) != RowOf(w, d)
    {
      var i :| 0 <= i < |w.acts| && w.acts[i] == Claimed(RowOf(w, c).value, c);
      var j :| 0 <= j < |w.acts| && w.acts[j] == Claimed(RowOf(w, d).value, d);
      assert i < j || j < i;
    }
  }

  lemma HoldersAreClaimers(w: World)
    requires Invariant(w)
    ensures Claimers(w.acts) == Holders(w)
    ensures forall r :: r in ClaimedRows(w.acts) ==> r in w.rows && w.rows[r]
  {
    hide CallFacts;
    forall c | c in Holders(w) ensures c in Claimers(w.acts) {
      var i :| 0 <= i < |w.acts| && w.acts[i] == Claimed(RowOf(w, c).value, c);
    }
  }

  /** The calls that returned an envelope with a prekey. */
  function Holders(w: World): set<CallId> {
    set c | c in w.calls && RowOf(w, c).Some?
  }

  lemma ClaimSnoc(acts: seq<Act>)
    requires acts != []
    ensures var front, last := acts[..|acts| - 1], acts[|acts| - 1];
      && ClaimedRows(acts) == ClaimedRows(front) + (if last.Claimed? then {last.row} else {})
      && Claimers(acts) == Claimers(front) + (if last.Claimed? then {last.call} else {})
  {
    var front, last := acts[..|acts| - 1], acts[|acts| - 1];
    assert acts == front + [last];
    assert forall i :: 0 <= i < |front| ==> front[i] == acts[i];
  }

  lemma LastIsNew(acts: seq<Act>)
    requires EachOnce(acts) && acts != [] && acts[|acts| - 1].Claimed?
    ensures acts[|acts| - 1].row !in ClaimedRows(acts[..|acts| - 1])
    ensures acts[|acts| - 1].call !in Claimers(acts[..|acts| - 1])
  {
  }

  /** Each claim is by its own call and on its own row. */
  lemma {:induction false} ClaimCounts(acts: seq<Act>)
    requires EachOnce(acts)
    ensures |ClaimedRows(acts)| == |Claimers(acts)|
    ensures |Claimers(acts)| + Replacements(acts) == |acts|
  {
    hide ClaimedRows, Claimers;
    if acts != [] {
      var front := acts[..|acts| - 1];
      assert forall i :: 0 <= i < |front| ==> front[i] == acts[i];
      ClaimCounts(front);
      ClaimSnoc(acts);
      if acts[|acts| - 1].Claimed? { LastIsNew(acts); }
    } else {
      NoClaims();
    }
  }

  lemma NoClaims()
    ensures ClaimedRows([]) == {} && Claimers([]) == {}
  {
  }

  function Consumed(rows: map<Row, bool>): set<Row> {
    set r | r in rows && rows[r]
  }

  /** The rows consumed since the start are exactly the claimed ones. */
  lemma {:induction false} ConsumedRowsAreClaimed(start: World, run: seq<Step>)
    requires Start(start) && After(start, run).Some?
    ensures var w := After(start, run).value;
      && Consumed(w.rows) == Consumed(start.rows) + ClaimedRows(w.acts)
      && Consumed(start.rows) !! ClaimedRows(w.acts)
  {
    if run != [] {
      var front, s := run[..|run| - 1], run[|run| - 1];
      ConsumedRowsAreClaimed(start, front);
      InvariantOfRun(start, front);
      ConsumedStep(After(start, front).value, s);
    } else {
      NoClaims();
    }
  }

  lemma ConsumedStep(w: World, s: Step)
    requires Invariant(w) && Enabled(w, s)
    ensures var w' := Do(w, s);
      var claimed := ClaimedRows(w'.acts) - ClaimedRows(w.acts);
      ClaimedRows(w.acts) <= ClaimedRows(w'.acts) && Consumed(w'.rows) == Consumed(w.rows) + claimed
        && Consumed(w.rows) !! claimed
  {
    hide CallFacts, ClaimedRows, RowOf;
    var w' := Do(w, s);
    if w'.acts != w.acts {
      assert w'.acts[..|w'.acts| - 1] == w.acts;
      ClaimSnoc(w'.acts);
      if s.Claim? {
        var row := w.calls[s.call].phase.row;
        assert Consumed(w'.rows) == Consumed(w.rows) + {row};
        ClaimedAreConsumed(w);
      } else {
        assert Consumed(w'.rows) == Consumed(w.rows);
      }
    }
  }

  lemma ClaimedAreConsumed(w: World)
    requires Invariant(w)
    ensures ClaimedRows(w.acts) <= Consumed(w.rows)
  {
  }

  /**
   Replacing the pool puts exactly `count` rows on offer, none of which was ever there, and keeps the
   consumed ones; so whatever row a call has peeked is lost to it.
   */
  lemma ReplacingOffersNewRows(start: World, run: seq<Step>, count: nat, c: CallId)
    requires Start(start) && After(start, run).Some?
    ensures var w := After(start, run).value;
      var w' := Do(w, Replace(count));
      && |Available(w'.rows)| == count && Available(w'.rows) !! w.rows.Keys
      && Consumed(w'.rows) == Consumed(w.rows)
      && (c in w'.calls && w'.calls[c].phase.Claiming? ==>
            && Enabled(w', Claim(c)) && Do(w', Claim(c)).rows == w'.rows
            && Do(w', Claim(c)).calls[c].lost == w.calls[c].lost + 1)
  {
    hide After;
    InvariantOfRun(start, run);
    var w := After(start, run).value;
    var rows := Do(w, Replace(count)).rows;
    assert Available(rows) == Unconsumed(w.nextId, count).Keys;
    UnconsumedSize(w.nextId, count);
    if c in w.calls && w.calls[c].phase.Claiming? { PeekedIsLost(w, count, c); }
    hide CallFacts, Enabled, EachOnce;
  }

  lemma PeekedIsLost(w: World, count: nat, c: CallId)
    requires Invariant(w) && c in w.calls && w.calls[c].phase.Claiming?
    ensures var w' := Do(w, Replace(count));
      && Enabled(w', Claim(c)) && Do(w', Claim(c)).rows == w'.rows
      && Do(w', Claim(c)).calls[c].lost == w.calls[c].lost + 1
  {
    FactsOf(w, c);
    hide Invariant, EachOnce;
  }

  lemma {:induction false} UnconsumedSize(from: Row, count: nat)
    ensures |Unconsumed(from, count).Keys| == count
  {
    if count > 0 {
      UnconsumedSize(from, count - 1);
      assert Unconsumed(from, count).Keys == Unconsumed(from, count - 1).Keys + {from + count - 1};
    }
  }

  /** A call whose wrap fails ends there, with no row; without a prekey left it ends with the plain wrap. */
  lemma CallsThatClaimNothing(w: World, c: CallId, wraps: bool)
    requires c in w.calls && w.calls[c].phase.Peeking? && w.calls[c].lost < 8
    ensures Enabled(w, Peek(c, wraps))
    ensures var w' := Do(w, Peek(c, wraps));
      && w'.rows == w.rows && w'.acts == w.acts && c in w'.calls
      && (!wraps ==> w'.calls[c].phase == Done(WrapFailed))
      && (wraps && (forall r :: r in w.rows ==> w.rows[r]) ==> w'.calls[c].phase == Done(Wrapped(None)))
      && (wraps && (exists r :: r in w.rows && !w.rows[r]) ==> w'.calls[c].phase.Claiming?)
  {
    if r :| r in w.rows && !w.rows[r] { assert r in Available(w.rows); }
  }

  // ---- the fallback needs eight rivals ----

  /** What happened to the pool since a call began. */
  function During(w: World, c: CallId): seq<Act>
    requires c in w.calls && w.calls[c].since <= |w.acts|
  {
    w.acts[w.calls[c].since..]
  }

  /**
   By the time a call ends in the fallback, at least eight things have happened since it began:
   as many different other calls claimed a row, or the pool was replaced.
   */
  lemma FallbackNeedsEightRivals(start: World, run: seq<Step>, c: CallId)
    requires Start(start) && After(start, run).Some?
    requires c in After(start, run).value.calls && After(start, run).value.calls[c].phase.Done?
    requires After(start, run).value.calls[c].phase.outcome.Fallback?
    ensures var w := After(start, run).value;
      && w.calls[c].since <= |w.acts|
      && c !in Claimers(During(w, c))
      && |Claimers(During(w, c))| + Replacements(During(w, c)) >= 8
  {
    hide After, Invariant, During, Claimers, Replacements;
    InvariantOfRun(start, run);
    FallbackHistory(After(start, run).value, c);
  }

  lemma FallbackHistory(w: World, c: CallId)
    requires Invariant(w) && c in w.calls && w.calls[c].phase.Done? && w.calls[c].phase.outcome.Fallback?
    ensures w.calls[c].since <= |w.acts|
    ensures c !in Claimers(During(w, c)) && |Claimers(During(w, c))| + Replacements(During(w, c)) >= MAX_CLAIM_RETRIES
  {
    assert CallFacts(w, w.calls[c]);
    var during := During(w, c);
    assert forall i :: 0 <= i < |during| ==> during[i] == w.acts[w.calls[c].since + i];
    ClaimCounts(during);
  }

  /** So with at most eight calls on a pool that is not replaced, none falls back. */
  lemma EightCallsNeverFallBack(start: World, run: seq<Step>)
    requires Start(start) && After(start, run).Some?
    requires |After(start, run).value.calls| <= 8
    requires forall i :: 0 <= i < |run| ==> !run[i].Replace?
    ensures var w := After(start, run).value;
      forall c :: c in w.calls && w.calls[c].phase.Done? ==> !w.calls[c].phase.outcome.Fallback?
  {
    hide After, Invariant;
    var w := After(start, run).value;
    InvariantOfRun(start, run);
    NeverReplaced(start, run);
    forall c | c in w.calls && w.calls[c].phase.Done? ensures !w.calls[c].phase.outcome.Fallback? {
      if w.calls[c].phase.outcome.Fallback? {
        FallbackHistory(w, c);
        NoReplacements(During(w, c));
        ClaimersAreCalls(w, c);
        SubsetSize(Claimers(During(w, c)), w.calls.Keys - {c});
      }
    }
  }

  lemma ClaimersAreCalls(w: World, c: CallId)
    requires Invariant(w) && c in w.calls && w.calls[c].since <= |w.acts| && c !in Claimers(During(w, c))
    ensures Claimers(During(w, c)) <= w.calls.Keys - {c}
  {
    var during := During(w, c);
    assert forall i :: 0 <= i < |during| ==> during[i] == w.acts[w.calls[c].since + i];
  }

  lemma {:induction false} NeverReplaced(start: World, run: seq<Step>)
    requires Start(start) && After(start, run).Some?
    requires forall i :: 0 <= i < |run| ==> !run[i].Replace?
    ensures forall i :: 0 <= i < |After(start, run).value.acts| ==> After(start, run).value.acts[i].Claimed?
  {
    if run != [] {
      var front := run[..|run| - 1];
      assert forall i :: 0 <= i < |front| ==> front[i] == run[i];
      NeverReplaced(start, front);
      assert !run[|run| - 1].Replace?;
    }
  }

  lemma {:induction false} NoReplacements(acts: seq<Act>)
    requires forall i :: 0 <= i < |acts| ==> acts[i].Claimed?
    ensures Replacements(acts) == 0
  {
    if acts != [] { NoReplacements(acts[..|acts| - 1]); }
  }

  lemma {:induction false} SubsetSize<T>(a: set<T>, b: set<T>)
    requires a <= b
    ensures |a| <= |b|
    decreases a
  {
    if a != {} {
      var x :| x in a;
      SubsetSize(a - {x}, b - {x});
    }
  }

  // ---- and eight are enough ----

  lemma Extend(start: World, run: seq<Step>, s: Step)
    requires After(start, run).Some? && Enabled(After(start, run).value, s)
    ensures After(start, run + [s]) == Some(Do(After(start, run).value, s))
  {
    assert (run + [s])[..|run + [s]| - 1] == run;
  }

  /** A rival that peeks after `c` and claims before it makes `c` start over. */
  lemma LoseRace(start: World, run: seq<Step>, c: CallId, d: CallId) returns (longer: seq<Step>)
    requires After(start, run).Some?
    requires var w := After(start, run).value;
      c in w.calls && w.calls[c].phase == Peeking && w.calls[c].lost < MAX_CLAIM_RETRIES &&
      d !in w.calls && Available(w.rows) != {}
    ensures After(start, longer).Some?
    ensures var w, w' := After(start, run).value, After(start, longer).value;
      && w'.calls.Keys == w.calls.Keys + {d}
      && w'.calls[c] == w.calls[c].(lost := w.calls[c].lost + 1)
      && |Available(w'.rows)| == |Available(w.rows)| - 1
  {
    hide After;
    var w := After(start, run).value;
    var row := Lowest(Available(w.rows));
    Extend(start, run, Begin(d));
    Extend(start, run + [Begin(d)], Peek(c, true));
    Extend(start, run + [Begin(d)] + [Peek(c, true)], Peek(d, true));
    Extend(start, run + [Begin(d)] + [Peek(c, true)] + [Peek(d, true)], Claim(d));
    longer := run + [Begin(d)] + [Peek(c, true)] + [Peek(d, true)] + [Claim(d)] + [Claim(c)];
    Extend(start, run + [Begin(d)] + [Peek(c, true)] + [Peek(d, true)] + [Claim(d)], Claim(c));
    var w' := After(start, longer).value;
    assert w'.rows == w.rows[row := true];
    assert Available(w'.rows) == Available(w.rows) - {row};
  }

  /** Call 0 loses `k` claims in a row, each to a call of its own. */
  ghost predicate Lost(start: World, w: World, k: nat) {
    && w.calls.Keys == UpTo(k)
    && 0 in w.calls && w.calls[0].phase == Peeking && w.calls[0].lost == k
    && |Available(w.rows)| == |Available(start.rows)| - k
  }

  lemma {:induction false} LoseRaces(start: World, k: nat) returns (run: seq<Step>)
    requires Start(start) && |Available(start.rows)| > MAX_CLAIM_RETRIES && k <= MAX_CLAIM_RETRIES
    ensures After(start, run).Some? && Lost(start, After(start, run).value, k)
  {
    hide After, UpTo, Available, Do;
    if k == 0 {
      Nothing(start);
      Extend(start, [], Begin(0));
      run := [] + [Begin(0)];
      FirstBegins(start);
    } else {
      var shorter := LoseRaces(start, k - 1);
      UpToSize(k);
      run := LoseRace(start, shorter, 0, k);
    }
  }

  lemma FirstBegins(start: World)
    requires Start(start)
    ensures Lost(start, Do(start, Begin(0)), 0)
  {
    hide Available;
  }

  /** The bound is exact: a ninth call can be made to fall back while prekeys are still available. */
  lemma NineCallsCanFallBack(start: World) returns (run: seq<Step>)
    requires Start(start) && |Available(start.rows)| > 8
    ensures After(start, run).Some?
    ensures var w := After(start, run).value;
      && |w.calls| == 9 && Available(w.rows) != {}
      && 0 in w.calls && w.calls[0].phase == Done(Fallback(true))
  {
    hide After, UpTo, Available;
    run := LoseRaces(start, MAX_CLAIM_RETRIES);
    var w := After(start, run).value;
    Extend(start, run, GiveUp(0, true));
    run := run + [GiveUp(0, true)];
    UpToSize(MAX_CLAIM_RETRIES);
    var w' := After(start, run).value;
    assert w'.calls.Keys == UpTo(MAX_CLAIM_RETRIES);
    assert |w'.calls| == |w'.calls.Keys|;
  }

  lemma Nothing(start: World)
    ensures After(start, []) == Some(start)
  {
  }

  function UpTo(k: nat): set<CallId> {
    if k == 0 then {0} else UpTo(k - 1) + {k}
  }

  lemma {:induction false} UpToSize(k: nat)
    ensures |UpTo(k)| == k + 1 && forall c :: c in UpTo(k) ==> c <= k
    ensures k > 0 ==> UpTo(k) == UpTo(k - 1) + {k} && k !in UpTo(k - 1)
  {
    if k > 0 { UpToSize(k - 1); }
  }

  // ---- one call, as written: a loop of eight attempts ----

  /** The rows after others have consumed those in `taken`. */
  function Take(rows: map<Row, bool>, taken: set<Row>): map<Row, bool> {
    map r | r in rows :: rows[r] || r in taken
  }

  /** The rows after the first `k` rounds of rivals. */
  function Rivalled(rows: map<Row, bool>, rivals: seq<set<Row>>, k: nat): map<Row, bool>
    requires k <= |rivals|
  {
    if k == 0 then rows else Take(Rivalled(rows, rivals, k - 1), rivals[k - 1])
  }

  /** In round `k` a row was available and rivals consumed the lowest one before it was claimed. */
  ghost predicate LostRound(rows: map<Row, bool>, rivals: seq<set<Row>>, k: nat)
    requires k < |rivals|
  {
    var s := Available(Rivalled(rows, rivals, k));
    s != {} && Lowest(s) in rivals[k]
  }

  lemma LowestIsUnique(s: set<Row>, r: Row)
    requires IsLowest(r, s)
    ensures Lowest(s) == r
  {
  }

  class Pool {
    var rows: map<Row, bool>

    constructor (rows: map<Row, bool>)
      ensures this.rows == rows
    {
      this.rows := rows;
    }

    method PeekOneTimePrekey() returns (row: Option<Row>)
      ensures row == if Available(rows) == {} then None else Some(Lowest(Available(rows)))
    {
      row := None;
      var rest := Available(rows);
      while rest != {}
        invariant rest <= Available(rows)
        invariant row.None? <==> rest == Available(rows)
        invariant row.Some? ==> row.value in Available(rows) && forall q :: q in Available(rows) ==>
          q in rest || row.value <= q
        decreases |rest|
      {
        var r :| r in rest;
        if row.None? || r < row.value { row := Some(r); }
        rest := rest - {r};
      }
      if row.Some? { LowestIsUnique(Available(rows), row.value); }
    }

    method TryConsumeOneTimePrekey(row: Row) returns (claimed: bool)
      modifies this
      ensures claimed == (row in Available(old(rows)))
      ensures rows == if claimed then old(rows)[row := true] else old(rows)
    {
      claimed := row in rows && !rows[row];
      if claimed { rows := rows[row := true]; }
    }

    /**
     `rivals[k]` are the rows other calls consume between the peek and the claim of attempt `k`;
     `wraps` says for which prekey, or none, the wrap succeeds. After `lost` lost attempts the call
     ends in one of four ways, and only a claim of its own consumes anything beyond the rivals' rows.
     */
    method WrapContentKeyForDevice(rivals: seq<set<Row>>, wraps: Option<Row> -> bool)
      returns (outcome: Outcome, ghost lost: nat)
      requires |rivals| == MAX_CLAIM_RETRIES
      modifies this
      ensures lost <= MAX_CLAIM_RETRIES
      ensures forall k :: 0 <= k < lost ==> LostRound(old(rows), rivals, k)
      ensures outcome.Fallback? <==> lost == MAX_CLAIM_RETRIES
      ensures outcome.Fallback? ==> outcome.ok == wraps(None)
      ensures var peeked := Available(Rivalled(old(rows), rivals, lost));
        && (outcome.Wrapped? && outcome.otp.None? ==> peeked == {} && wraps(None))
        && (outcome == WrapFailed ==> !wraps(if peeked == {} then None else Some(Lowest(peeked))))
        && (outcome.Wrapped? && outcome.otp.Some? ==>
          peeked != {} && outcome.otp.value == Lowest(peeked) && wraps(outcome.otp))
      ensures if outcome.Wrapped? && outcome.otp.Some?
              then lost < MAX_CLAIM_RETRIES && outcome.otp.value !in rivals[lost]
                && rows == Rivalled(old(rows), rivals, lost + 1)[outcome.otp.value := true]
              else rows == Rivalled(old(rows), rivals, lost)
    {
      hide Rivalled, Lowest;
      lost := 0;
      assert rows == Rivalled(rows, rivals, 0) by { NoRounds(rows, rivals); }
      var attempt := 0;
      while attempt < MAX_CLAIM_RETRIES
        invariant lost == attempt <= MAX_CLAIM_RETRIES
        invariant rows == Rivalled(old(rows), rivals, lost)
        invariant forall k :: 0 <= k < lost ==> LostRound(old(rows), rivals, k)
      {
        var otp := PeekOneTimePrekey();
        if !wraps(otp) { return WrapFailed, lost; }
        match otp {
          case None => return Wrapped(None), lost;
          case Some(row) =>
            NextRound(old(rows), rivals, lost);
            rows := Take(rows, rivals[attempt]);
            var claimed := TryConsumeOneTimePrekey(row);
            if claimed { return Wrapped(Some(row)), lost; }
            attempt, lost := attempt + 1, lost + 1;
        }
      }
      outcome := Fallback(wraps(None));
    }
  }

  lemma NoRounds(rows: map<Row, bool>, rivals: seq<set<Row>>)
    ensures Rivalled(rows, rivals, 0) == rows
  {
  }

  lemma NextRound(rows: map<Row, bool>, rivals: seq<set<Row>>, k: nat)
    requires k < |rivals|
    ensures Rivalled(rows, rivals, k + 1) == Take(Rivalled(rows, rivals, k), rivals[k])
  {
  }

  /** Unless rivals consumed at least eight available rows meanwhile, an attempt is not lost eight times. */
  lemma {:induction false} LostRoundsTakeRows(rows: map<Row, bool>, rivals: seq<set<Row>>, k: nat)
    requires k <= |rivals| && forall i :: 0 <= i < k ==> LostRound(rows, rivals, i)
    ensures |Available(Rivalled(rows, rivals, k))| + k <= |Available(rows)|
  {
    hide Available;
    if k > 0 {
      LostRoundsTakeRows(rows, rivals, k - 1);
      assert LostRound(rows, rivals, k - 1);
      TakeLowers(Rivalled(rows, rivals, k - 1), rivals[k - 1], Lowest(Available(Rivalled(rows, rivals, k - 1))));
    }
  }

  lemma TakeLowers(rows: map<Row, bool>, taken: set<Row>, r: Row)
    requires r in Available(rows) && r in taken
    ensures |Available(Take(rows, taken))| < |Available(rows)|
  {
    SubsetSize(Available(Take(rows, taken)), Available(rows) - {r});
  }
}
