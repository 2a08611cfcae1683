/** The fetch-delay stage as an object, driving the branch predictor: what delay each
instruction gets, and when a misprediction is charged. */
module FetchStage {
  import opened Wrappers
  import BP = BranchPredictor
  import opened FetchDelay
  import opened Recency

  /** An instruction as the stage sees it: its address and size are known from metadata or not. */
  datatype FetchInst = FetchInst(id: nat, isBranch: bool, addr: Option<BP.Branch>)
  {
    predicate IsKnownBranch() { isBranch && addr.Some? }
  }

  /** Which way a branch went, seen from the instruction that followed. */
  function Actual(branch: BP.Branch, next: BP.Branch): BP.Direction {
    if next.addr == branch.addr + branch.size then BP.NOT_TAKEN else BP.TAKEN
  }

  /** Stalls beyond the configured limit are not simulated; a negative limit means none. */
  function Capped(delay: nat, limit: int): (d: nat)
    ensures limit < 0 || delay <= limit ==> d == delay
    ensures 0 <= limit < delay ==> d == limit
  {
    if limit > -1 && delay > limit then limit else delay
  }

  // ---------------------------------------------------------------------------
  // The predictor side of the stage
  // ---------------------------------------------------------------------------

  datatype Front = Front(table: BP.History, accesses: nat, predicted: Option<BP.Direction>, previous: Option<BP.Branch>)

  /** Something was predicted for the instruction before, and `x` shows how it went. */
  predicate Resolves(f: Front, x: FetchInst) {
    f.predicted.Some? && x.addr.Some? && f.previous.Some?
  }

  predicate Mispredicted(f: Front, x: FetchInst) {
    Resolves(f, x) && Actual(f.previous.value, x.addr.value) != f.predicted.value
  }

  /** The branch before `x` is recorded if `x` shows how it went, which leads to table `mid`. */
  ghost predicate Records(capacity: nat, f: Front, x: FetchInst, mid: BP.History) {
    if Resolves(f, x)
    then BP.Recorded(f.table, mid, capacity, f.previous.value, Actual(f.previous.value, x.addr.value), f.accesses)
    else mid == f.table
  }

  /** One instruction: record the branch before it, and then predict the instruction if it is
      a branch itself. */
  ghost predicate FrontStep(capacity: nat, f: Front, x: FetchInst, mid: BP.History, f': Front) {
    Records(capacity, f, x, mid) && f' == Predict(mid, f.accesses, x)
  }

  function Predict(mid: BP.History, accesses: nat, x: FetchInst): Front {
    if x.IsKnownBranch()
    then Front(BP.AfterPredict(mid, x.addr.value, accesses + 1), accesses + 1,
               Some(BP.Predicted(mid, x.addr.value)), x.addr)
    else Front(mid, accesses, None, x.addr)
  }

  /** Recording adds no key but the recorded branch, so keys stay separated. */
  lemma RecordedKeepsSeparate(f: Front, x: FetchInst, capacity: nat, mid: BP.History)
    requires x.addr.Some? && Records(capacity, f, x, mid)
    requires BP.Separated(f.table.Keys + (if f.previous.Some? then {f.previous.value} else {}) + {x.addr.value})
    ensures BP.Separated(mid.Keys + {x.addr.value})
  {
  }

  // ---------------------------------------------------------------------------
  // The stage itself
  // ---------------------------------------------------------------------------

  class MCADFetchDelayStage {
    const bpu: BP.NaiveBranchPredictorUnit
    const maxNumberSimulatedStallCycles: int
    const enableBranchPredictorModeling: bool
    var instrQueue: seq<Delayed>
    var predictedBranchDirection: Option<BP.Direction>
    var previousInstrAddr: Option<BP.Branch>
    var numBranches: nat
    var numMispredictions: nat
    ghost var history: Stage  // what the queue has done so far

    ghost predicate Valid()
      reads this
    {
      history.queue == instrQueue
    }

    ghost function FrontState(): Front
      reads this, bpu
    {
      Front(bpu.branchHistory, bpu.nAccesses, predictedBranchDirection, previousInstrAddr)
    }

    constructor (bpu: BP.NaiveBranchPredictorUnit, maxNumberSimulatedStallCycles: int, enableBranchPredictorModeling: bool)
      ensures Valid() && history == EMPTY && this.bpu == bpu
      ensures this.maxNumberSimulatedStallCycles == maxNumberSimulatedStallCycles
      ensures this.enableBranchPredictorModeling == enableBranchPredictorModeling
      ensures FrontState() == Front(bpu.branchHistory, bpu.nAccesses, None, None)
      ensures numBranches == numMispredictions == 0
    {
      this.bpu, this.maxNumberSimulatedStallCycles := bpu, maxNumberSimulatedStallCycles;
      this.enableBranchPredictorModeling := enableBranchPredictorModeling;
      instrQueue, history := [], EMPTY;
      predictedBranchDirection, previousInstrAddr := None, None;
      numBranches, numMispredictions := 0, 0;
    }

    /** Passes on due instructions until the next stage refuses one. */
    method ForwardDueInstrs(accept: nat)
      requires Valid()
      modifies `instrQueue, `history
      ensures Valid() && history == Forward(old(history), accept)
    {
      var taken := 0;
      while instrQueue != [] && instrQueue[0].cyclesLeft == 0
        invariant Valid() && taken <= accept
        invariant Forward(history, accept - taken) == Forward(old(history), accept)
        decreases |instrQueue|
      {
        if taken == accept { break; }
        history := PassOne(history);
        instrQueue := instrQueue[1..];
        taken := taken + 1;
      }
    }

    ghost predicate KeysSeparated(x: FetchInst)
      reads this, bpu
    {
      BP.Separated(bpu.branchHistory.Keys + (if previousInstrAddr.Some? then {previousInstrAddr.value} else {})
                                          + (if x.addr.Some? then {x.addr.value} else {}))
    }

    /** Resolves the branch before `x`; yields the penalty. */
    method ResolveBranch(x: FetchInst) returns (penalty: nat)
      requires KeysSeparated(x)
      modifies `numBranches, `numMispredictions, bpu
      ensures Records(bpu.historyCapacity, old(FrontState()), x, bpu.branchHistory)
      ensures FrontState() == old(FrontState()).(table := bpu.branchHistory)
      ensures penalty == if Mispredicted(old(FrontState()), x) then bpu.mispredictionPenalty else 0
      ensures numMispredictions == old(numMispredictions) + if Mispredicted(old(FrontState()), x) then 1 else 0
      ensures numBranches == old(numBranches) + if Resolves(old(FrontState()), x) then 1 else 0
    {
      penalty := 0;
      if predictedBranchDirection.Some? && x.addr.Some? && previousInstrAddr.Some? {
        var actual := Actual(previousInstrAddr.value, x.addr.value);
        bpu.RecordTakenBranch(previousInstrAddr.value, actual);
        numBranches := numBranches + 1;
        if actual != predictedBranchDirection.value {
          penalty := bpu.mispredictionPenalty;
          numMispredictions := numMispredictions + 1;
        }
      }
    }

    /** Predicts `x` if it is a branch. */
    method PredictNext(x: FetchInst)
      requires x.addr.Some? ==> BP.Separated(bpu.branchHistory.Keys + {x.addr.value})
      modifies `predictedBranchDirection, bpu
      ensures FrontState().(previous := x.addr) == Predict(old(bpu.branchHistory), old(bpu.nAccesses), x)
    {
      if x.isBranch && x.addr.Some? {
        var d := bpu.PredictBranch(x.addr.value);
        predictedBranchDirection := Some(d);
      } else {
        predictedBranchDirection := None;
      }
    }

    /** The delay of an instruction is the time to load it plus the penalty if the branch
        before it was mispredicted, up to the limit. */
    method Execute(x: FetchInst, loadDelay: nat, accept: nat) returns (ghost mid: BP.History)
      requires Valid() && (enableBranchPredictorModeling ==> KeysSeparated(x))
      modifies this, bpu
      ensures Valid()
      ensures if enableBranchPredictorModeling then FrontStep(bpu.historyCapacity, old(FrontState()), x, mid, FrontState())
              else FrontState() == old(FrontState()).(previous := x.addr)
      ensures var wrong := enableBranchPredictorModeling && Mispredicted(old(FrontState()), x);
              var resolves := enableBranchPredictorModeling && Resolves(old(FrontState()), x);
              var delay := loadDelay + if wrong then bpu.mispredictionPenalty else 0;
              && history == Step(old(history), Event.Execute(x.id, Capped(delay, maxNumberSimulatedStallCycles), accept))
              && numMispredictions == old(numMispredictions) + (if wrong then 1 else 0)
              && numBranches == old(numBranches) + (if resolves then 1 else 0)
    {
      hide Records, Predict, Forward;
      var delayCyclesLeft := loadDelay;
      var penalty := 0;
      mid := bpu.branchHistory;
      if enableBranchPredictorModeling {
        penalty := ResolveBranch(x);
        mid := bpu.branchHistory;
        if x.addr.Some? { RecordedKeepsSeparate(old(FrontState()), x, bpu.historyCapacity, mid); }
        PredictNext(x);
      }
      delayCyclesLeft := delayCyclesLeft + penalty;
      if maxNumberSimulatedStallCycles > -1 && delayCyclesLeft > maxNumberSimulatedStallCycles {
        delayCyclesLeft := maxNumberSimulatedStallCycles;
      }
      instrQueue := instrQueue + [Delayed(delayCyclesLeft, x.id)];
      history := Enqueue(history, x.id, delayCyclesLeft);
      previousInstrAddr := x.addr;
      ForwardDueInstrs(accept);
    }

    method CycleStart(accept: nat)
      requires Valid()
      modifies `instrQueue, `history
      ensures Valid() && history == Step(old(history), Event.CycleStart(accept))
    {
      if instrQueue != [] && instrQueue[0].cyclesLeft > 0 {
        instrQueue := instrQueue[0 := instrQueue[0].(cyclesLeft := instrQueue[0].cyclesLeft - 1)];
      }
      history := Tick(history);
      ForwardDueInstrs(accept);
    }
  }

  // ---------------------------------------------------------------------------
  // Whole instruction streams
  // ---------------------------------------------------------------------------

  /** A branch followed by another instruction, as the predictor sees it. */
  function EventOf(b: FetchInst, next: FetchInst): BP.Event
    requires b.IsKnownBranch()
  {
    if next.addr.Some? then BP.Resolved(b.addr.value, Actual(b.addr.value, next.addr.value)) else BP.Unresolved(b.addr.value)
  }

  lemma RecordsTheEvent(capacity: nat, p: BP.History, accesses: nat, b: FetchInst, x: FetchInst, mid: BP.History)
    requires Records(capacity, Predict(p, accesses, b), x, mid)
    ensures if b.IsKnownBranch() then BP.StepTo(capacity, p, EventOf(b, x), mid, accesses + 1) else mid == p
  {
  }

  lemma NothingRecorded(capacity: nat, f: Front, x: FetchInst, mid: BP.History)
    requires Records(capacity, f, x, mid) && f.predicted.None?
    ensures mid == f.table
  {
  }

  /** The branches of the stream that have been followed by another instruction, as the
      predictor sees them. */
  ghost function Events(xs: seq<FetchInst>): seq<BP.Event> {
    if |xs| < 2 then [] else
      var b, next := xs[|xs| - 2], xs[|xs| - 1];
      Events(xs[..|xs| - 1]) + if b.IsKnownBranch() then [EventOf(b, next)] else []
  }

  ghost predicate FrontRun(capacity: nat, start: nat, xs: seq<FetchInst>, mids: seq<BP.History>, fs: seq<Front>) {
    && |fs| == |xs| + 1 && |mids| == |xs|
    && fs[0] == Front(map[], start, None, None)
    && forall k: nat {:trigger xs[k]} | k < |xs| :: FrontStep(capacity, fs[k], xs[k], mids[k], fs[k + 1])
  }

  /** The state of the front after a stream: `p` is the predictor's table before it was last asked. */
  ghost predicate FrontAfter(capacity: nat, start: nat, xs: seq<FetchInst>, f: Front, p: BP.History, ms: seq<BP.History>) {
    var ev := Events(xs);
    && BP.IsRun(capacity, start, ev, ms) && p == ms[|ev|]
    && f == (if xs == [] then Front(map[], start, None, None) else Predict(p, start + |ev|, xs[|xs| - 1]))
    && (xs == [] ==> p == map[])
  }

  lemma AccessesAfter(p: BP.History, accesses: nat, b: FetchInst)
    ensures Predict(p, accesses, b).accesses == accesses + if b.IsKnownBranch() then 1 else 0
  {
  }

  lemma RunExtends(capacity: nat, start: nat, ev: seq<BP.Event>, ms: seq<BP.History>, e: BP.Event, m: BP.History)
    requires BP.IsRun(capacity, start, ev, ms) && BP.StepTo(capacity, ms[|ev|], e, m, start + |ev| + 1)
    ensures BP.IsRun(capacity, start, ev + [e], ms + [m]) && |ms| == |ev| + 1
  {
    hide BP.StepTo;
    var ev', ms' := ev + [e], ms + [m];
    forall i: nat | i < |ev'| ensures BP.StepTo(capacity, ms'[i], ev'[i], ms'[i + 1], start + i + 1) {
      if i < |ev| { assert ev'[i] == ev[i]; }
    }
  }

  lemma FrontStepAgrees(capacity: nat, start: nat, xs: seq<FetchInst>, x: FetchInst, f: Front, p: BP.History,
                        ms: seq<BP.History>, mid: BP.History, f': Front) returns (ms': seq<BP.History>)
    requires FrontAfter(capacity, start, xs, f, p, ms) && FrontStep(capacity, f, x, mid, f')
    ensures FrontAfter(capacity, start, xs + [x], f', mid, ms')
  {
    hide BP.IsRun, BP.StepTo, Predict, EventOf, Records;
    var ev := Events(xs);
    assert (xs + [x])[..|xs|] == xs;
    ms' := ms;
    if xs == [] {
      assert Events([x]) == [];
      NothingRecorded(capacity, f, x, mid);
    } else {
      var b := xs[|xs| - 1];
      RecordsTheEvent(capacity, p, start + |ev|, b, x, mid);
      AccessesAfter(p, start + |ev|, b);
      if b.IsKnownBranch() {
        assert Events(xs + [x]) == ev + [EventOf(b, x)];
        RunExtends(capacity, start, ev, ms, EventOf(b, x), mid);
        ms' := ms + [mid];
      } else {
        assert Events(xs + [x]) == ev;
      }
    }
  }

  lemma {:induction false} FrontRunAgrees(capacity: nat, start: nat, xs: seq<FetchInst>, mids: seq<BP.History>, fs: seq<Front>, k: nat)
    returns (p: BP.History, ms: seq<BP.History>)
    requires FrontRun(capacity, start, xs, mids, fs) && k <= |xs|
    ensures FrontAfter(capacity, start, xs[..k], fs[k], p, ms)
  {
    if k == 0 {
      p, ms := map[], [map[]];
    } else {
      p, ms := FrontRunAgrees(capacity, start, xs, mids, fs, k - 1);
      assert FrontStep(capacity, fs[k - 1], xs[k - 1], mids[k - 1], fs[k]);
      hide FrontStep;
      hide FrontAfter;
      ms := FrontStepAgrees(capacity, start, xs[..k - 1], xs[k - 1], fs[k - 1], p, ms, mids[k - 1], fs[k]);
      assert xs[..k - 1] + [xs[k - 1]] == xs[..k];
      p := mids[k - 1];
    }
  }

  // ---------------------------------------------------------------------------
  // Charges, read off the addresses of the stream
  // ---------------------------------------------------------------------------

  /** The last instruction shows how the one before it went: that is a branch, and both addresses
      are known. */
  predicate Resolved(xs: seq<FetchInst>) {
    |xs| >= 2 && xs[|xs| - 2].isBranch && xs[|xs| - 2].addr.Some? && xs[|xs| - 1].addr.Some?
  }

  /** Then it fell through if the last instruction lies right behind it. */
  predicate FellThrough(xs: seq<FetchInst>)
    requires Resolved(xs)
  {
    xs[|xs| - 1].addr.value.addr == xs[|xs| - 2].addr.value.addr + xs[|xs| - 2].addr.value.size
  }

  /** Whether branch `b` fell through the last time that the stream shows how it went. */
  predicate LastFell(xs: seq<FetchInst>, b: BP.Branch) {
    if |xs| < 2 then false
    else if Resolved(xs) && xs[|xs| - 2].addr.value == b then FellThrough(xs)
    else LastFell(xs[..|xs| - 1], b)
  }

  /** The branches used by the stream, in order: those that it shows how they went, and others
      that were remembered. */
  ghost function UsedBranches(capacity: nat, xs: seq<FetchInst>): seq<BP.Branch> {
    if |xs| < 2 then [] else
      var before, x := xs[..|xs| - 1], xs[|xs| - 2];
      UsedBranches(capacity, before)
      + if Resolved(xs) || (x.isBranch && x.addr.Some? && InMemory(capacity, UsedBranches(capacity, before), x.addr.value))
        then [x.addr.value] else []
  }

  /** A branch is remembered if fewer than `capacity - 1` others have been used since it was. */
  ghost predicate InMemory(capacity: nat, us: seq<BP.Branch>, b: BP.Branch) {
    b in us && |Newer(us, BP.Everyone(), b)| < capacity - 1
  }

  ghost predicate Remembered(capacity: nat, xs: seq<FetchInst>, b: BP.Branch) {
    InMemory(capacity, UsedBranches(capacity, xs), b)
  }

  /** What the predictor has seen is what the stream shows. */
  ghost predicate UsesMatch(capacity: nat, xs: seq<FetchInst>) {
    var us := BP.Uses(capacity, Events(xs));
    && BP.Branches(us) == UsedBranches(capacity, xs)
    && forall b | b in BP.Branches(us) :: BP.LastDirection(us, b) == if LastFell(xs, b) then BP.NOT_TAKEN else BP.TAKEN
  }

  lemma KnownIffInMemory(capacity: nat, us: seq<BP.Use>, b: BP.Branch)
    ensures BP.Known(us, capacity, b) <==> InMemory(capacity, BP.Branches(us), b)
  {
  }

  /** One more use: the direction is the new one for `u.b`, and as it was for the others. */
  lemma OneMoreUse(us: seq<BP.Use>, u: BP.Use)
    ensures BP.Branches(us + [u]) == BP.Branches(us) + [u.b]
    ensures forall b | b in BP.Branches(us + [u]) ::
              && (b != u.b ==> b in BP.Branches(us))
              && BP.LastDirection(us + [u], b) == if b == u.b then u.d else BP.LastDirection(us, b)
  {
    BP.BranchesAppend(us, u);
    forall b | b in BP.Branches(us + [u])
      ensures (b != u.b ==> b in BP.Branches(us)) && BP.LastDirection(us + [u], b) == if b == u.b then u.d else BP.LastDirection(us, b)
    {
      BP.LastDirectionAppend(us, u, b);
    }
  }

  lemma UsesOfStream(capacity: nat, xs: seq<FetchInst>)
    requires |xs| >= 2
    ensures var x, us := xs[|xs| - 2], BP.Uses(capacity, Events(xs[..|xs| - 1]));
            BP.Uses(capacity, Events(xs))
              == if x.IsKnownBranch() then BP.Used(capacity, us, EventOf(x, xs[|xs| - 1])) else us
  {
    hide BP.Used, EventOf;
    var ev, x := Events(xs[..|xs| - 1]), xs[|xs| - 2];
    if x.IsKnownBranch() {
      assert (ev + [EventOf(x, xs[|xs| - 1])])[..|ev|] == ev;
    } else {
      assert Events(xs) == ev;
    }
  }

  lemma UsesStep(capacity: nat, xs: seq<FetchInst>)
    requires |xs| >= 2 && UsesMatch(capacity, xs[..|xs| - 1])
    ensures UsesMatch(capacity, xs)
  {
    hide BP.LastDirection, BP.Known, InMemory, BP.Uses, Events;
    var x, next := xs[|xs| - 2], xs[|xs| - 1];
    var us := BP.Uses(capacity, Events(xs[..|xs| - 1]));
    UsesOfStream(capacity, xs);
    if x.IsKnownBranch() {
      var b := x.addr.value;
      KnownIffInMemory(capacity, us, b);
      if Resolved(xs) {
        OneMoreUse(us, BP.Use(b, EventOf(x, next).d));
      } else if BP.Known(us, capacity, b) {
        KnownIsUsed(us, capacity, b);
        OneMoreUse(us, BP.Use(b, BP.LastDirection(us, b)));
      }
    }
  }

  lemma KnownIsUsed(us: seq<BP.Use>, capacity: nat, b: BP.Branch)
    requires BP.Known(us, capacity, b)
    ensures b in BP.Branches(us)
  {
  }

  lemma {:induction false} StreamMatches(capacity: nat, xs: seq<FetchInst>)
    ensures UsesMatch(capacity, xs)
  {
    if |xs| < 2 {
      assert Events(xs) == [];
    } else {
      StreamMatches(capacity, xs[..|xs| - 1]);
      UsesStep(capacity, xs);
    }
  }

  /** In every stream, an instruction is charged for a misprediction exactly if the instruction
      before it is a branch, both addresses are known, and either the branch is not remembered
      and the instruction does not lie right behind it, or it is remembered and "right behind it"
      is true now and was not the last time, or the other way round. */
  lemma ChargedIffMispredicted(capacity: nat, start: nat, xs: seq<FetchInst>, mids: seq<BP.History>, fs: seq<Front>, k: nat)
    requires FrontRun(capacity, start, xs, mids, fs) && k < |xs|
    ensures Mispredicted(fs[k], xs[k]) <==>
              && k > 0 && xs[k - 1].isBranch && xs[k - 1].addr.Some? && xs[k].addr.Some?
              && var b := xs[k - 1].addr.value;
                 var behind := xs[k].addr.value.addr == b.addr + b.size;
                 if Remembered(capacity, xs[..k], b) then behind != LastFell(xs[..k], b) else !behind
  {
    hide BP.Uses, UsedBranches, LastFell, BP.LastDirection;
    var p, ms := FrontRunAgrees(capacity, start, xs, mids, fs, k);
    if k > 0 && xs[k - 1].IsKnownBranch() {
      var us, b := BP.Uses(capacity, Events(xs[..k])), xs[k - 1].addr.value;
      BP.PredictionIsLastDirection(capacity, start, Events(xs[..k]), ms, b);
      StreamMatches(capacity, xs[..k]);
      KnownIffInMemory(capacity, us, b);
    }
  }
}
