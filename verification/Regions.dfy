/**
 The Trade Processor's exchange of mapped regions: the writer fills a region and hands it over, the
 persister syncs it and gives it back.  Two queues connect them; their operations are single steps
 here because the queues are FIFOs in every interleaving (see `Spsc.BoundedFifo`).  Neither thread
 looks at the result of `give_region`.
 */
module Regions {
  import opened Bits
  import opened Spsc

  type Region = nat

  /** Usable places of a 32-slot queue. */
  const ROOM: nat := 31

  const TRADE_SIZE: nat := 48

  datatype Limits = Limits(fileSize: nat, maxTrades: nat)

  datatype Writer =
    | Wanting                                  // no region in hand
    | Filling(region: Region, offset: nat)     // next trade goes to `offset`
    | Brimming(region: Region)                 // the region is full and about to be handed over
    | Finished(told: bool)                     // out of the loop; `told` once the done flag is set

  datatype Persister =
    | Waiting
    | Claimed(region: Region)                  // taken from the persist queue, not yet synced
    | Synced(region: Region)
    | Draining
    | DrainClaimed(region: Region)
    | DrainGiven(region: Region)               // already back in the write queue, sync still to come
    | Cleaning
    | Closed

  datatype State = State(
    writeQueue: seq<Region>, persistQueue: seq<Region>,
    writer: Writer, persister: Persister, trades: nat,
    handed: seq<Region>, synced: seq<Region>, unmapped: seq<Region>)  // history, oldest first

  datatype Action =
    | Acquire | WriteTrade | HandOver | Leave | SetDone
    | Claim | Sync | GiveBack | SeeDone | DrainClaim | DrainGive | DrainSync | DrainEnd | Unmap | Close

  /** give_region on a queue of fixed size: refused, and the region lost to the caller, when full. */
  function Give(q: seq<Region>, r: Region): seq<Region> {
    if |q| < ROOM then q + [r] else q
  }

  function WriterStep(l: Limits, s: State, a: Action): State {
    match (a, s.writer)
    case (Acquire, Wanting) =>
      if s.trades < l.maxTrades && s.writeQueue != []
        then s.(writer := Filling(s.writeQueue[0], 0), writeQueue := s.writeQueue[1..]) else s
    case (WriteTrade, Filling(r, offset)) =>
      if s.trades >= l.maxTrades then s
      else s.(trades := s.trades + 1,
              writer := if offset + TRADE_SIZE >= l.fileSize then Brimming(r) else Filling(r, offset + TRADE_SIZE))
    case (HandOver, Brimming(r)) =>
      s.(writer := Wanting, persistQueue := Give(s.persistQueue, r), handed := s.handed + [r])
    case (Leave, Wanting) => if s.trades >= l.maxTrades then s.(writer := Finished(false)) else s
    case (Leave, Filling(r, _)) =>
      if s.trades >= l.maxTrades
      then s.(writer := Finished(false), persistQueue := Give(s.persistQueue, r), handed := s.handed + [r])
      else s
    case (SetDone, Finished(_)) => s.(writer := Finished(true))
    case _ => s
  }

  function PersisterStep(s: State, a: Action): State {
    match (a, s.persister)
    case (Claim, Waiting) =>
      if s.persistQueue != [] then s.(persister := Claimed(s.persistQueue[0]), persistQueue := s.persistQueue[1..])
        else s
    case (Sync, Claimed(r)) => s.(persister := Synced(r), synced := s.synced + [r])
    case (GiveBack, Synced(r)) => s.(persister := Waiting, writeQueue := Give(s.writeQueue, r))
    case (SeeDone, Waiting) => if s.writer == Finished(true) then s.(persister := Draining) else s
    case (DrainClaim, Draining) =>
      if s.persistQueue != [] then s.(persister := DrainClaimed(s.persistQueue[0]),
        persistQueue := s.persistQueue[1..]) else s
    case (DrainGive, DrainClaimed(r)) => s.(persister := DrainGiven(r), writeQueue := Give(s.writeQueue, r))
    case (DrainSync, DrainGiven(r)) => s.(persister := Draining, synced := s.synced + [r])
    case (DrainEnd, Draining) => if s.persistQueue == [] then s.(persister := Cleaning) else s
    case (Unmap, Cleaning) =>
      if s.writeQueue != [] then s.(writeQueue := s.writeQueue[1..], unmapped := s.unmapped + [s.writeQueue[0]]) else s
    case (Close, Cleaning) => if s.writeQueue == [] then s.(persister := Closed) else s
    case _ => s
  }

  function Apply(l: Limits, s: State, a: Action): State {
    if IsWriterAction(a) then WriterStep(l, s, a) else PersisterStep(s, a)
  }

  function Run(l: Limits, s: State, acts: seq<Action>): State
    decreases |acts|
  {
    if acts == [] then s else Run(l, Apply(l, s, acts[0]), acts[1..])
  }

  // ----- Who owns what -------------------------------------------------------------------------

  function WriterHolds(w: Writer): seq<Region> {
    if w.Filling? || w.Brimming? then [w.region] else []
  }

  function PersisterHolds(p: Persister): seq<Region> {
    if p.Claimed? || p.Synced? || p.DrainClaimed? then [p.region] else []
  }

  /** The region the persister has claimed but not synced yet. */
  function Unsynced(p: Persister): seq<Region> {
    if p.Claimed? || p.DrainClaimed? || p.DrainGiven? then [p.region] else []
  }

  /** How often `r` occurs in a list of regions. */
  function Occ(q: seq<Region>, r: Region): nat {
    if q == [] then 0 else (if q[0] == r then 1 else 0) + Occ(q[1..], r)
  }

  /** How often `r` is held: in one of the two queues, by one of the two threads, or unmapped. */
  function Holdings(s: State, r: Region): nat {
    Occ(s.writeQueue, r) + Occ(WriterHolds(s.writer), r) + Occ(s.persistQueue, r)
    + Occ(PersisterHolds(s.persister), r) + Occ(s.unmapped, r)
  }

  function Total(s: State): nat {
    |s.writeQueue| + |WriterHolds(s.writer)| + |s.persistQueue| + |PersisterHolds(s.persister)| + |s.unmapped|
  }

  predicate AfterDone(p: Persister) {
    p.Draining? || p.DrainClaimed? || p.DrainGiven? || p.Cleaning? || p.Closed?
  }

  ghost predicate Conserved(s: State, all: seq<Region>) {
    Total(s) == |all| && forall r {:trigger Holdings(s, r)} :: Holdings(s, r) == Occ(all, r)
  }

  ghost predicate Ordered(l: Limits, s: State) {
    && (AfterDone(s.persister) ==> s.writer == Finished(true))
    && (s.persister.Cleaning? || s.persister.Closed? ==> s.persistQueue == [])
    && (s.persister.Closed? ==> s.writeQueue == [])
    && (s.persister.Cleaning? || s.persister.Closed? || s.unmapped == [])
    && s.trades <= l.maxTrades
    && (s.writer.Filling? ==> s.writer.offset < l.fileSize || s.writer.offset == 0)
  }

  ghost predicate Inv(l: Limits, s: State, all: seq<Region>) {
    Conserved(s, all) && |all| <= ROOM && Accounted(s) && Ordered(l, s)
  }

  /** The ignored results are always true: whoever gives a region back leaves room for it. */
  lemma {:induction false} GiveSucceeds(l: Limits, s: State, all: seq<Region>)
    requires Inv(l, s, all)
    ensures |WriterHolds(s.writer)| == 1 ==> |s.persistQueue| < ROOM
    ensures |PersisterHolds(s.persister)| == 1 ==> |s.writeQueue| < ROOM
  {
  }

  lemma {:induction false} OccAppend(q: seq<Region>, x: Region, r: Region)
    ensures Occ(q + [x], r) == Occ(q, r) + if x == r then 1 else 0
    decreases |q|
  {
    if q == [] {
      assert q + [x] == [x];
    } else {
      assert (q + [x])[1..] == q[1..] + [x];
      OccAppend(q[1..], x, r);
    }
  }

  lemma {:induction false} OccOne(x: Region, r: Region)
    ensures Occ([x], r) == if x == r then 1 else 0
  {
    assert [x][1..] == [];
  }

  lemma {:induction false} WriterConserves(l: Limits, s: State, a: Action, r: Region)
    requires |WriterHolds(s.writer)| == 1 ==> |s.persistQueue| < ROOM
    ensures Holdings(WriterStep(l, s, a), r) == Holdings(s, r) && Total(WriterStep(l, s, a)) == Total(s)
  {
    if |WriterHolds(s.writer)| == 1 {
      OccAppend(s.persistQueue, s.writer.region, r);
      OccOne(s.writer.region, r);
    }
    if s.writeQueue != [] {
      OccOne(s.writeQueue[0], r);
    }
  }

  lemma {:induction false} PersisterConserves(s: State, a: Action, r: Region)
    requires |PersisterHolds(s.persister)| == 1 ==> |s.writeQueue| < ROOM
    ensures Holdings(PersisterStep(s, a), r) == Holdings(s, r) && Total(PersisterStep(s, a)) == Total(s)
  {
    if |PersisterHolds(s.persister)| == 1 {
      OccAppend(s.writeQueue, s.persister.region, r);
      OccOne(s.persister.region, r);
    }
    if s.writeQueue != [] {
      OccAppend(s.unmapped, s.writeQueue[0], r);
    }
    if s.persistQueue != [] {
      OccOne(s.persistQueue[0], r);
    }
  }

  /** Nothing handed over is forgotten: it has been synced, is being synced, or waits in the persist queue. */
  ghost predicate Accounted(s: State) {
    s.handed == s.synced + Unsynced(s.persister) + s.persistQueue
  }

  predicate IsWriterAction(a: Action) {
    a.Acquire? || a.WriteTrade? || a.HandOver? || a.Leave? || a.SetDone?
  }

  lemma {:induction false} StepKeeps(l: Limits, s: State, all: seq<Region>, a: Action)
    requires Inv(l, s, all)
    ensures Inv(l, Apply(l, s, a), all)
  {
    GiveSucceeds(l, s, all);
    var s' := Apply(l, s, a);
    forall r
      ensures Holdings(s', r) == Occ(all, r) && Total(s') == Total(s)
    {
      assert Holdings(s, r) == Occ(all, r);
      if IsWriterAction(a) { WriterConserves(l, s, a, r); } else { PersisterConserves(s, a, r); }
    }
    assert Total(s') == Total(s) by { assert Holdings(s', 0) == Occ(all, 0); }
  }

  lemma {:induction false} RunKeeps(l: Limits, s: State, all: seq<Region>, acts: seq<Action>)
    requires Inv(l, s, all)
    ensures Inv(l, Run(l, s, acts), all)
    decreases |acts|
  {
    if acts != [] {
      StepKeeps(l, s, all, acts[0]);
      RunKeeps(l, Apply(l, s, acts[0]), all, acts[1..]);
    }
  }

  /** The constructor's state: all regions, pairwise distinct, in the write queue. */
  ghost predicate Init(s: State) {
    && |s.writeQueue| == ROOM && (forall r :: Occ(s.writeQueue, r) <= 1)
    && |s.persistQueue| == 0 && s.writer.Wanting? && s.persister.Waiting? && s.trades == 0
    && |s.handed| == 0 && |s.synced| == 0 && |s.unmapped| == 0
  }

  /**
   In every interleaving the 31 regions are split without loss or duplication between the two queues,
   the two threads and the unmapped ones; what has been synced is a prefix of what was handed over, in
   that order; and once the persister has closed, everything handed over has been synced once and each
   of the 31 regions has been unmapped once.
   */
  lemma {:induction false} RegionsConserved(l: Limits, s: State, acts: seq<Action>)
    requires Init(s)
    ensures var e := Run(l, s, acts);
            && Total(e) == ROOM
            && (forall r {:trigger Holdings(e, r)} :: Holdings(e, r) == Occ(s.writeQueue, r) <= 1)
            && e.synced <= e.handed
            && (e.persister.Closed? ==>
                  e.synced == e.handed && |e.unmapped| == ROOM
                    && forall r :: Occ(e.unmapped, r) == Occ(s.writeQueue, r))
  {
    assert Conserved(s, s.writeQueue);
    RunKeeps(l, s, s.writeQueue, acts);
    var e := Run(l, s, acts);
    if e.persister.Closed? {
      forall r
        ensures Occ(e.unmapped, r) == Occ(s.writeQueue, r)
      {
        assert Holdings(e, r) == Occ(s.writeQueue, r);
      }
    }
  }

  // ----- Where each trade goes ------------------------------------------------------------------------

  /** How many trades a region takes: one for every full or begun trade's length of it. */
  function PerRegion(l: Limits): nat {
    (l.fileSize + TRADE_SIZE - 1) / TRADE_SIZE
  }

  /**
   Regions are filled one after the other, trade behind trade: the trades written so far are those of the
   regions handed over and those of the one in hand.  At the end the last region may be begun only.
   */
  ghost predicate Laid(l: Limits, s: State) {
    var k := PerRegion(l);
    match s.writer
    case Wanting => s.trades == |s.handed| * k
    case Filling(_, offset) =>
      && offset % TRADE_SIZE == 0 && offset < l.fileSize && s.trades == |s.handed| * k + offset / TRADE_SIZE
      && (offset == 0 ==> s.trades < l.maxTrades)
    case Brimming(_) => s.trades == |s.handed| * k + k
    case Finished(_) => s.trades == l.maxTrades && s.trades <= |s.handed| * k < s.trades + k
  }

  lemma {:induction false} StepLays(l: Limits, s: State, a: Action)
    requires l.fileSize >= 1 && Laid(l, s) && s.trades <= l.maxTrades
    ensures Laid(l, Apply(l, s, a))
  {
    var k, n := PerRegion(l), |s.handed|;
    NextMultiple(k, n);
    assert k * n == n * k && k * (n + 1) == (n + 1) * k;
    if s.writer.Filling? {
      var j := s.writer.offset / TRADE_SIZE;
      assert s.writer.offset == TRADE_SIZE * j && j < k;
      assert s.writer.offset + TRADE_SIZE >= l.fileSize <==> j + 1 == k;
    }
  }

  /** In every interleaving trades are laid out that way. */
  lemma {:induction false} TradesAreLaidOut(l: Limits, s: State, acts: seq<Action>)
    requires Init(s) && l.fileSize >= 1
    ensures Laid(l, Run(l, s, acts))
  {
    assert Conserved(s, s.writeQueue);
    RunLays(l, s, s.writeQueue, acts);
  }

  /**
   The next trade goes behind those already in the region.  It starts inside the region, so it runs past the
   end by less than one trade.
   */
  lemma {:induction false} BoundedOverrun(l: Limits, s: State, acts: seq<Action>)
    requires Init(s) && l.fileSize >= 1
    ensures var e := Run(l, s, acts);
            e.writer.Filling? ==>
              && e.writer.offset == TRADE_SIZE * (e.trades - |e.handed| * PerRegion(l))
              && e.writer.offset + TRADE_SIZE < l.fileSize + TRADE_SIZE
  {
    TradesAreLaidOut(l, s, acts);
  }

  lemma {:induction false} RunLays(l: Limits, s: State, all: seq<Region>, acts: seq<Action>)
    requires l.fileSize >= 1 && Inv(l, s, all) && Laid(l, s)
    ensures Laid(l, Run(l, s, acts))
    decreases |acts|
  {
    if acts != [] {
      StepLays(l, s, acts[0]);
      StepKeeps(l, s, all, acts[0]);
      RunLays(l, Apply(l, s, acts[0]), all, acts[1..]);
    }
  }

  // ----- The threads never get stuck ------------------------------------------------------------------

  function WriterRank(w: Writer): nat {
    match w
    case Brimming(_) => 4
    case Wanting => 3
    case Filling(_, _) => 2
    case Finished(told) => if told then 0 else 1
  }

  function PersisterRank(p: Persister): nat {
    if p.Closed? then 0 else if p.Cleaning? then 1 else if AfterDone(p) then 2 else 3
  }

  /** What the persister still has to do with the regions around it. */
  function Work(s: State): nat {
    8 * |s.persistQueue| + |s.writeQueue|
    + match s.persister
      case Claimed(_) => 6
      case Synced(_) => 4
      case DrainClaimed(_) => 6
      case DrainGiven(_) => 4
      case _ => 0
  }

  /** A step that brings the end nearer. */
  function Useful(l: Limits, s: State): Action {
    match s.persister
    case Claimed(_) => Sync
    case Synced(_) => GiveBack
    case DrainClaimed(_) => DrainGive
    case DrainGiven(_) => DrainSync
    case Draining => if s.persistQueue != [] then DrainClaim else DrainEnd
    case Cleaning => if s.writeQueue != [] then Unmap else Close
    case Closed => Close
    case Waiting =>
      if s.persistQueue != [] then Claim
      else
        match s.writer
        case Brimming(_) => HandOver
        case Wanting => if s.trades < l.maxTrades then Acquire else Leave
        case Filling(_, _) => if s.trades < l.maxTrades then WriteTrade else Leave
        case Finished(told) => if told then SeeDone else SetDone
  }

  ghost predicate Nearer(l: Limits, s: State, s': State) {
    || s.trades < s'.trades <= l.maxTrades
    || (s.trades == s'.trades
        && (|| WriterRank(s'.writer) < WriterRank(s.writer)
            || (s'.writer == s.writer
                && (|| PersisterRank(s'.persister) < PersisterRank(s.persister)
                    || (PersisterRank(s'.persister) == PersisterRank(s.persister) && Work(s') < Work(s))))))
  }

  /** Such a step is always open: if all regions are in the write queue, the writer finds one. */
  lemma {:induction false} AlwaysUseful(l: Limits, s: State, all: seq<Region>)
    requires Inv(l, s, all) && |all| >= 1 && !s.persister.Closed?
    ensures Nearer(l, s, Apply(l, s, Useful(l, s)))
  {
    GiveSucceeds(l, s, all);
  }

  lemma {:induction false} CanFinish(l: Limits, s: State, all: seq<Region>) returns (acts: seq<Action>)
    requires Inv(l, s, all) && |all| >= 1
    ensures Run(l, s, acts).persister.Closed?
    decreases l.maxTrades - s.trades, WriterRank(s.writer), PersisterRank(s.persister), Work(s)
  {
    acts := [];
    if !s.persister.Closed? {
      var a := Useful(l, s);
      AlwaysUseful(l, s, all);
      StepKeeps(l, s, all, a);
      var rest := CanFinish(l, Apply(l, s, a), all);
      acts := [a] + rest;
      assert acts[1..] == rest;
    }
  }

  lemma {:induction false} RunConcat(l: Limits, s: State, a: seq<Action>, b: seq<Action>)
    ensures Run(l, s, a + b) == Run(l, Run(l, s, a), b)
    decreases |a|
  {
    if a == [] {
      assert a + b == b;
    } else {
      assert (a + b)[1..] == a[1..] + b;
      RunConcat(l, Apply(l, s, a[0]), a[1..], b);
    }
  }

  /**
   From every reachable state the two threads can go on to the end, where all trades have been written and
   every region that holds one has been handed over and synced.
   */
  lemma {:induction false} NeverStuck(l: Limits, s: State, acts: seq<Action>) returns (more: seq<Action>)
    requires Init(s) && l.fileSize >= 1
    ensures var e := Run(l, s, acts + more);
            && e.persister.Closed? && e.trades == l.maxTrades && e.synced == e.handed
            && l.maxTrades <= |e.synced| * PerRegion(l) < l.maxTrades + PerRegion(l)
  {
    assert Conserved(s, s.writeQueue);
    RunKeeps(l, s, s.writeQueue, acts);
    more := CanFinish(l, Run(l, s, acts), s.writeQueue);
    RunConcat(l, s, acts, more);
    TradesAreLaidOut(l, s, acts + more);
    RunKeeps(l, s, s.writeQueue, acts + more);
  }

  /** The queues are the 32-slot ones. */
  lemma {:induction false} RoomIsUsableSize()
    ensures FreeRunning(32).Valid() && FreeRunning(32).Slots() - 1 == ROOM
  {
    CounterSizes();
  }
}
