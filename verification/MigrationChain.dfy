/** The chain that a migration runs against, as a machine of events: transactions are broadcast, land in nonce order
    and may revert, while the rest of the world moves on.  `MaySend` is what the tool is held to when it broadcasts;
    whatever sequence of events obeys it keeps the migration safe, wherever runs of the tool were killed. */
module MigrationChain {
  import opened Lists
  import opened Positional
  import opened AdoptionPlan

  const MAX_V1_NOTICE_EPOCHS: nat := 2 * EPOCHS_IN_DAY

  /** `Unrelated` is any other transaction from the client's address. */
  datatype Tx = Adopt(batch: seq<nat>) | FinishPosting | TerminateRail(force: bool) | SettleRail | Unrelated

  datatype DealState = Accepted | Active | OtherState

  /** The V1 rail; `Finalized` once it is settled and its storage is deleted. */
  datatype Rail = Open(lockup: nat) | Ended(endEpoch: nat) | Finalized(endEpoch: nat)

  /** The chain as a transaction found it when it landed. */
  datatype View = View(epoch: nat, v1: seq<nat>, registered: seq<nat>, allocatedBytes: nat, requested: nat,
                       paddingBps: nat, revised: bool, wasActive: bool, rail: Rail)

  datatype Receipt = Receipt(tx: Tx, ok: bool, view: View)

  /** `log` holds the client's landed transactions, so that its length is the confirmed count, and `pool` the ones that
      are broadcast but have not landed.  `origin` and `sizes` are the ids and sizes of the V1 deal's claims at the
      start; `v1` lists those it still has.  `requested` and `paddingBps` are the size of the V2 deal and the padding
      of the market, and `revised` says that the former has been changed or the latter lowered.  `wasActive` says that
      the V2 deal has been ACTIVE. */
  datatype Chain = Chain(epoch: nat, origin: set<nat>, sizes: map<nat, nat>, v1: seq<nat>, registered: seq<nat>,
                         allocatedBytes: nat, requested: nat, paddingBps: nat, revised: bool, postingFinished: bool,
                         deal: DealState, wasActive: bool, rail: Rail, log: seq<Receipt>, pool: seq<Tx>)
  {
    function Latest(): nat {
      |log|
    }

    function Pending(): nat {
      |log| + |pool|
    }

    predicate Covered() {
      Elements(v1) <= Elements(registered)
    }

    predicate Quiet() {
      forall i :: 0 <= i < |pool| ==> !pool[i].Adopt?
    }

    /** No pending transaction would register a claim. */
    predicate Inert() {
      forall i :: 0 <= i < |pool| && pool[i].Adopt? ==> pool[i].batch == []
    }

    function Least(): int {
      LeastSize(requested, paddingBps)
    }

    function Most(): int {
      MostSize(requested, paddingBps)
    }

    function Look(): View {
      View(epoch, v1, registered, allocatedBytes, requested, paddingBps, revised, wasActive, rail)
    }
  }

  /** `Submit` is a broadcast by the tool; a nonce that is taken replaces a pending transaction or is refused.  All
      other events are the world's: `TermsChange` is the admin replacing the V2 deal's manifest or setting padding. */
  datatype Event =
    | Submit(nonce: nat, tx: Tx, bump: bool)
    | LandHead(ok: bool)
    | ForeignSend
    | V1Drops(rest: seq<nat>)
    | EpochAdvances(epoch: nat)
    | DealMoves(state: DealState)
    | TermsChange(requested: nat, paddingBps: nat)
    | LockupShortens(lockup: nat)
    | OthersTerminate(endEpoch: nat)
    | OthersSettle

  /** What has to hold of the chain from the broadcast of a transaction until it lands. */
  predicate InOrder(c: Chain, tx: Tx) {
    match tx
    case Adopt(batch) => Distinct(batch) && Elements(batch) !! Elements(c.registered) && Elements(batch) <= c.origin
    case FinishPosting => c.Covered() && (!c.revised ==> c.Least() <= c.allocatedBytes * MAX_BPS)
    case TerminateRail(force) =>
      c.Covered() && c.wasActive && (c.rail.Open? && !force ==> c.rail.lockup <= MAX_V1_NOTICE_EPOCHS)
    case SettleRail => !c.rail.Open? && (c.rail.Ended? ==> c.rail.endEpoch < c.epoch)
    case Unrelated => true
  }

  /** A list of claims of the deal that holds those it still has, the registered and the pending ones.  Its size is
      accepted for the V2 deal, unless its terms have been revised. */
  ghost predicate Encloses(c: Chain, claims: seq<nat>) {
    && Distinct(claims)
    && Elements(c.v1) <= Elements(claims) <= c.origin
    && Elements(c.registered) <= Elements(claims)
    && (forall i :: 0 <= i < |c.pool| && c.pool[i].Adopt? ==> Elements(c.pool[i].batch) <= Elements(claims))
    && (!c.revised ==> SumSizes(c.sizes, claims) * MAX_BPS <= c.Most())
  }

  ghost predicate Holds(c: Chain, claims: seq<nat>, batch: seq<nat>) {
    Encloses(c, claims) && Elements(batch) <= Elements(claims)
  }

  /** What the tool owes the chain when it broadcasts. */
  ghost predicate MaySend(c: Chain, tx: Tx) {
    !tx.Unrelated? && InOrder(c, tx) && (tx.Adopt? ==> c.Quiet() && exists claims :: Holds(c, claims, tx.batch))
  }

  /** Filecoin Pay terminates only an open rail and settles only a terminated one.  The adapter is not trusted to refuse
      anything: it would register a claim twice, or after posting has finished. */
  predicate Accepts(c: Chain, tx: Tx) {
    match tx
    case TerminateRail(_) => c.rail.Open?
    case SettleRail => c.rail.Ended?
    case _ => true
  }

  /** What the world may do.  The manifest of the V2 deal, and so its requested size, can be replaced only while the
      deal is ACCEPTED and no evidence has landed; the padding can be set at any time. */
  predicate WorldMay(c: Chain, e: Event) {
    match e
    case Submit(_, _, _) => false
    case LandHead(ok) => c.pool != [] && (ok ==> Accepts(c, c.pool[0]))
    case ForeignSend => true
    case V1Drops(rest) => Elements(rest) <= Elements(c.v1)
    case EpochAdvances(epoch) => c.epoch <= epoch
    case DealMoves(_) => true
    case TermsChange(requested, _) => requested == c.requested || (c.registered == [] && c.deal == Accepted)
    case LockupShortens(lockup) => c.rail.Open? && lockup <= c.rail.lockup
    case OthersTerminate(_) => c.rail.Open?
    case OthersSettle => c.rail.Ended?
  }

  /** How free the world is: time may stand still, the client's wallet may be used elsewhere, the V1 deal may lose any
      of its claims or none, the padding may take any value and the deal any state, and an open rail may be terminated
      by others at any end epoch or have its lockup shortened. */
  lemma WorldIsFree(c: Chain, epoch: nat, rest: seq<nat>, state: DealState, bps: nat, lockup: nat)
    ensures WorldMay(c, ForeignSend) && WorldMay(c, EpochAdvances(c.epoch + epoch))
    ensures Elements(rest) <= Elements(c.v1) ==> WorldMay(c, V1Drops(rest))
    ensures WorldMay(c, DealMoves(state)) && WorldMay(c, TermsChange(c.requested, bps))
    ensures c.rail.Open? ==> WorldMay(c, OthersTerminate(epoch))
    ensures c.rail.Open? && lockup <= c.rail.lockup ==> WorldMay(c, LockupShortens(lockup))
    ensures c.rail.Ended? ==> WorldMay(c, OthersSettle)
    ensures c.pool != [] ==> WorldMay(c, LandHead(false))
  {
  }

  ghost predicate Admissible(c: Chain, e: Event) {
    if e.Submit? then MaySend(c, e.tx) && e.nonce <= c.Pending() else WorldMay(c, e)
  }

  /** Effect of a transaction that succeeds; a termination ends the rail after its lockup. */
  function Effect(c: Chain, tx: Tx): Chain
    requires Accepts(c, tx)
  {
    match tx
    case Adopt(batch) =>
      c.(registered := c.registered + batch, allocatedBytes := c.allocatedBytes + SumSizes(c.sizes, batch))
    case FinishPosting => c.(postingFinished := true)
    case TerminateRail(_) => c.(rail := Ended(c.epoch + c.rail.lockup))
    case SettleRail => c.(rail := Finalized(c.rail.endEpoch))
    case Unrelated => c
  }

  function Landed(c: Chain, ok: bool): Chain
    requires c.pool != [] && (ok ==> Accepts(c, c.pool[0]))
  {
    var next := if ok then Effect(c, c.pool[0]) else c;
    next.(log := c.log + [Receipt(c.pool[0], ok, c.Look())], pool := c.pool[1..])
  }

  function Sent(c: Chain, nonce: nat, tx: Tx, bump: bool): Chain
    requires nonce <= c.Pending()
  {
    if nonce == c.Pending() then c.(pool := c.pool + [tx])
    else if c.Latest() <= nonce && bump then c.(pool := c.pool[nonce - c.Latest() := tx])
    else c
  }

  function Step(c: Chain, e: Event): Chain
    requires Admissible(c, e)
  {
    match e
    case Submit(nonce, tx, bump) => Sent(c, nonce, tx, bump)
    case LandHead(ok) => Landed(c, ok)
    case ForeignSend => c.(pool := c.pool + [Unrelated])
    case V1Drops(rest) => c.(v1 := rest)
    case EpochAdvances(epoch) => c.(epoch := epoch)
    case DealMoves(state) => c.(deal := state, wasActive := c.wasActive || state == Active)
    case TermsChange(requested, paddingBps) =>
      c.(requested := requested, paddingBps := paddingBps,
         revised := c.revised || requested != c.requested || paddingBps < c.paddingBps)
    case LockupShortens(lockup) => c.(rail := Open(lockup))
    case OthersTerminate(endEpoch) => c.(rail := Ended(endEpoch))
    case OthersSettle => c.(rail := Finalized(c.rail.endEpoch))
  }

  ghost predicate Legal(c: Chain, events: seq<Event>)
    decreases |events|, 0
  {
    events == []
    || (Legal(c, events[..|events| - 1]) && Admissible(Run(c, events[..|events| - 1]), events[|events| - 1]))
  }

  ghost function Run(c: Chain, events: seq<Event>): Chain
    requires Legal(c, events)
    decreases |events|, 1
  {
    if events == [] then c else Step(Run(c, events[..|events| - 1]), events[|events| - 1])
  }

  /** Before the first run of the tool: nothing is registered, and no transaction of the tool was ever broadcast. */
  predicate Fresh(c: Chain) {
    && (forall i :: 0 <= i < |c.log| ==> c.log[i].tx.Unrelated?)
    && (forall i :: 0 <= i < |c.pool| ==> c.pool[i].Unrelated?)
    && c.registered == [] && c.allocatedBytes == 0 && !c.postingFinished && (c.wasActive <==> c.deal == Active)
    && !c.revised && Elements(c.v1) <= c.origin <= c.sizes.Keys
  }

  // ---- safety ----

  /** The ids of the batches that landed with success, in order. */
  function AdoptedIn(log: seq<Receipt>): seq<nat> {
    if log == [] then []
    else
      var last := log[|log| - 1];
      AdoptedIn(log[..|log| - 1]) + (if last.ok && last.tx.Adopt? then last.tx.batch else [])
  }

  /** A landed transaction found the chain as it should. */
  predicate FoundInOrder(r: Receipt) {
    match r.tx
    case Adopt(batch) => Elements(batch) !! Elements(r.view.registered)
    case FinishPosting =>
      && Elements(r.view.v1) <= Elements(r.view.registered)
      && (!r.view.revised ==> SizeWithinPadding(r.view.allocatedBytes, r.view.requested, r.view.paddingBps))
    case TerminateRail(force) =>
      && r.view.rail.Open? && Elements(r.view.v1) <= Elements(r.view.registered) && r.view.wasActive
      && (force || r.view.rail.lockup <= MAX_V1_NOTICE_EPOCHS)
    case SettleRail => r.view.rail.Ended? && r.view.rail.endEpoch < r.view.epoch
    case Unrelated => true
  }

  /** No claim was adopted twice and none from outside the deal, and the adapter's bytes are those of its claims. */
  ghost predicate AdoptedOnce(c: Chain) {
    && c.registered == AdoptedIn(c.log)
    && Distinct(c.registered)
    && Elements(c.registered) <= c.origin
    && c.allocatedBytes == SumSizes(c.sizes, c.registered)
  }

  ghost predicate LandedInOrder(c: Chain) {
    forall i :: 0 <= i < |c.log| && c.log[i].ok ==> FoundInOrder(c.log[i])
  }

  /** The tool has finished posting, or terminated the V1 rail. */
  ghost predicate PointOfNoReturn(c: Chain) {
    c.postingFinished || exists i :: 0 <= i < |c.log| && c.log[i].ok && c.log[i].tx.TerminateRail?
  }

  predicate AtMostOnce(c: Chain) {
    forall i, j :: 0 <= i < j < |c.log| && c.log[i].ok && c.log[j].ok ==>
      && !(c.log[i].tx.TerminateRail? && c.log[j].tx.TerminateRail?)
      && !(c.log[i].tx.SettleRail? && c.log[j].tx.SettleRail?)
  }

  /** What successful transactions left behind is still there, and the rail ends when its termination said. */
  predicate Lasting(c: Chain) {
    forall i :: 0 <= i < |c.log| && c.log[i].ok ==>
      match c.log[i].tx
      case FinishPosting => c.postingFinished
      case TerminateRail(_) =>
        && !c.rail.Open?
        && (c.log[i].view.rail.Open? ==> c.rail.endEpoch == c.log[i].view.epoch + c.log[i].view.rail.lockup)
      case SettleRail => c.rail.Finalized?
      case _ => true
  }

  ghost predicate Safe(c: Chain) {
    && AdoptedOnce(c)
    && LandedInOrder(c)
    && (PointOfNoReturn(c) ==> c.Covered())
    && AtMostOnce(c)
    && Lasting(c)
  }

  /** What holds of the transactions that have not landed. */
  predicate PoolInOrder(c: Chain) {
    && (forall i :: 0 <= i < |c.pool| ==> InOrder(c, c.pool[i]))
    && (forall i, j :: 0 <= i < j < |c.pool| ==> !(c.pool[i].Adopt? && c.pool[j].Adopt?))
  }

  /** Nothing was adopted yet, or all that was and may be adopted lies in one list of an accepted size: the V1 claims of
      the first plan that was sent. */
  ghost predicate Bounded(c: Chain) {
    (c.registered == [] && c.Quiet()) || exists claims :: Encloses(c, claims)
  }

  ghost predicate Invariant(c: Chain) {
    && Safe(c) && PoolInOrder(c) && Bounded(c)
    && Elements(c.v1) <= c.origin <= c.sizes.Keys && (c.deal == Active ==> c.wasActive)
  }

  lemma {:induction false} NothingAdopted(log: seq<Receipt>)
    requires forall i :: 0 <= i < |log| ==> log[i].tx.Unrelated?
    ensures AdoptedIn(log) == []
  {
    if log != [] {
      NothingAdopted(log[..|log| - 1]);
    }
  }

  lemma FreshIsSafe(c: Chain)
    requires Fresh(c)
    ensures Invariant(c)
  {
    NothingAdopted(c.log);
  }

  lemma AdoptedInSnoc(log: seq<Receipt>, r: Receipt)
    ensures AdoptedIn(log + [r]) == AdoptedIn(log) + (if r.ok && r.tx.Adopt? then r.tx.batch else [])
  {
    assert (log + [r])[..|log|] == log;
  }

  lemma LandingKeepsAdoptedOnce(c: Chain, ok: bool)
    requires AdoptedOnce(c) && c.pool != [] && (ok ==> Accepts(c, c.pool[0])) && InOrder(c, c.pool[0])
    ensures AdoptedOnce(Landed(c, ok))
  {
    var r := Receipt(c.pool[0], ok, c.Look());
    AdoptedInSnoc(c.log, r);
    if ok && r.tx.Adopt? {
      var batch := r.tx.batch;
      SumSizesConcat(c.sizes, c.registered, batch);
      DistinctConcat(c.registered, batch);
      ElementsConcat(c.registered, batch);
    } else {
      assert AdoptedIn(c.log) + [] == AdoptedIn(c.log);
    }
  }

  lemma LandingKeepsCover(c: Chain, ok: bool)
    requires c.pool != [] && (ok ==> Accepts(c, c.pool[0])) && InOrder(c, c.pool[0])
    requires PointOfNoReturn(c) ==> c.Covered()
    ensures c.Covered() ==> Landed(c, ok).Covered()
    ensures PointOfNoReturn(Landed(c, ok)) ==> Landed(c, ok).Covered()
  {
    if c.pool[0].Adopt? {
      ElementsConcat(c.registered, c.pool[0].batch);
    }
    var d := Landed(c, ok);
    if PointOfNoReturn(d) && !d.postingFinished {
      var i :| 0 <= i < |d.log| && d.log[i].ok && d.log[i].tx.TerminateRail?;
      if i < |c.log| {
        assert c.log[i] == d.log[i];
      }
    }
  }

  lemma {:induction false} SubsetSum(sizes: map<nat, nat>, part: seq<nat>, all: seq<nat>)
    requires Distinct(part) && Elements(part) <= Elements(all)
    ensures SumSizes(sizes, part) <= SumSizes(sizes, all)
    decreases |part|
  {
    if part != [] {
      var init, last := part[..|part| - 1], part[|part| - 1];
      assert part == init + [last] && last in Elements(part);
      var k :| 0 <= k < |all| && all[k] == last;
      var rest := all[..k] + all[k + 1..];
      assert all == all[..k] + [last] + all[k + 1..];
      SumSizesConcat(sizes, all[..k], [last]);
      SumSizesConcat(sizes, all[..k] + [last], all[k + 1..]);
      SumSizesConcat(sizes, all[..k], all[k + 1..]);
      forall x | x in init
        ensures x in rest
      {
        assert x in Elements(part) && x != last;
      }
      SubsetSum(sizes, init, rest);
    }
  }

  /** The registered bytes are not above what is accepted. */
  lemma BytesAreBounded(c: Chain)
    requires AdoptedOnce(c) && Bounded(c) && !c.revised
    ensures c.allocatedBytes * MAX_BPS <= c.Most()
  {
    if c.registered != [] || !c.Quiet() {
      var claims :| Encloses(c, claims);
      SubsetSum(c.sizes, c.registered, claims);
    }
  }

  lemma LandingKeepsEnclosure(c: Chain, ok: bool, claims: seq<nat>)
    requires Encloses(c, claims) && c.pool != [] && (ok ==> Accepts(c, c.pool[0]))
    ensures Encloses(Landed(c, ok), claims)
  {
    var d := Landed(c, ok);
    if c.pool[0].Adopt? {
      ElementsConcat(c.registered, c.pool[0].batch);
    }
    hide Elements, Distinct, SumSizes;
    assert forall i :: 0 <= i < |d.pool| ==> d.pool[i] == c.pool[i + 1];
  }

  lemma SendingKeepsEnclosure(c: Chain, nonce: nat, tx: Tx, bump: bool, claims: seq<nat>)
    requires Encloses(c, claims) && nonce <= c.Pending() && (tx.Adopt? ==> Elements(tx.batch) <= Elements(claims))
    ensures Encloses(Sent(c, nonce, tx, bump), claims)
  {
    hide Elements, Distinct, SumSizes;
    var d := Sent(c, nonce, tx, bump);
    assert forall i :: 0 <= i < |d.pool| ==> d.pool[i] == tx || d.pool[i] in c.pool;
  }

  /** A larger padding accepts all that a smaller one does. */
  lemma PaddingWidens(requested: nat, paddingBps: nat, more: nat)
    requires paddingBps <= more
    ensures LeastSize(requested, more) <= LeastSize(requested, paddingBps)
    ensures MostSize(requested, paddingBps) <= MostSize(requested, more)
  {
    MulMonotone(requested, MAX_BPS as int - more, MAX_BPS as int - paddingBps);
    MulMonotone(requested, MAX_BPS + paddingBps, MAX_BPS + more);
  }

  lemma WorldKeepsEnclosure(c: Chain, e: Event, claims: seq<nat>)
    requires Encloses(c, claims) && WorldMay(c, e)
    ensures Encloses(Step(c, e), claims)
  {
    if e.LandHead? {
      LandingKeepsEnclosure(c, e.ok, claims);
    } else {
      if e.TermsChange? && c.paddingBps <= e.paddingBps {
        PaddingWidens(c.requested, c.paddingBps, e.paddingBps);
      }
      hide Elements, Distinct, SumSizes, LeastSize, MostSize;
    }
  }

  lemma StepKeepsBounded(c: Chain, e: Event)
    requires Bounded(c) && Admissible(c, e)
    ensures Bounded(Step(c, e))
  {
    hide Elements, Distinct, SumSizes, Encloses, InOrder;
    var d := Step(c, e);
    if e.Submit? && e.tx.Adopt? {
      var claims :| Holds(c, claims, e.tx.batch);
      SendingKeepsEnclosure(c, e.nonce, e.tx, e.bump, claims);
    } else if c.registered == [] && c.Quiet() {
      assert d.registered == [] && d.Quiet();
    } else {
      var claims :| Encloses(c, claims);
      if e.Submit? {
        SendingKeepsEnclosure(c, e.nonce, e.tx, e.bump, claims);
      } else {
        WorldKeepsEnclosure(c, e, claims);
      }
    }
  }

  lemma LandingExtendsLog(c: Chain, ok: bool)
    requires c.pool != [] && (ok ==> Accepts(c, c.pool[0]))
    ensures var d := Landed(c, ok);
            && |d.log| == |c.log| + 1 && d.log[|c.log|] == Receipt(c.pool[0], ok, c.Look())
            && forall i :: 0 <= i < |c.log| ==> d.log[i] == c.log[i]
  {
    hide Elements, Distinct, SumSizes;
  }

  lemma LandingIsInOrder(c: Chain, ok: bool)
    requires c.pool != [] && (ok ==> Accepts(c, c.pool[0])) && InOrder(c, c.pool[0])
    requires LandedInOrder(c) && (!c.revised ==> c.allocatedBytes * MAX_BPS <= c.Most())
    ensures LandedInOrder(Landed(c, ok))
  {
    LandingExtendsLog(c, ok);
    hide Elements, Distinct, SumSizes, Landed;
    assert ok ==> FoundInOrder(Receipt(c.pool[0], ok, c.Look()));
    hide FoundInOrder, Accepts, InOrder;
  }

  lemma LandingKeepsAtMostOnce(c: Chain, ok: bool)
    requires c.pool != [] && (ok ==> Accepts(c, c.pool[0])) && AtMostOnce(c) && Lasting(c)
    ensures AtMostOnce(Landed(c, ok))
  {
    LandingExtendsLog(c, ok);
    hide Elements, Distinct, SumSizes, Landed;
  }

  /** What a landing does to the rail and to the end of posting. */
  lemma LandingMovesRail(c: Chain, ok: bool)
    requires c.pool != [] && (ok ==> Accepts(c, c.pool[0]))
    ensures var d, tx := Landed(c, ok), c.pool[0];
            && (c.postingFinished || (ok && tx == FinishPosting) ==> d.postingFinished)
            && (!c.rail.Open? ==> !d.rail.Open? && d.rail.endEpoch == c.rail.endEpoch)
            && (c.rail.Finalized? || (ok && tx == SettleRail) ==> d.rail.Finalized?)
            && (ok && tx.TerminateRail? ==> d.rail == Ended(c.epoch + c.rail.lockup))
  {
    hide Elements, Distinct, SumSizes;
  }

  lemma LandingKeepsLasting(c: Chain, ok: bool)
    requires c.pool != [] && (ok ==> Accepts(c, c.pool[0])) && Lasting(c)
    ensures Lasting(Landed(c, ok))
  {
    LandingExtendsLog(c, ok);
    LandingMovesRail(c, ok);
    hide Accepts, Landed;
  }

  lemma LandingKeepsPool(c: Chain, ok: bool)
    requires c.pool != [] && (ok ==> Accepts(c, c.pool[0])) && PoolInOrder(c)
    ensures PoolInOrder(Landed(c, ok))
  {
    var d := Landed(c, ok);
    if c.pool[0].Adopt? {
      ElementsConcat(c.registered, c.pool[0].batch);
    }
    assert forall i :: 0 <= i < |d.pool| ==> d.pool[i] == c.pool[i + 1];
    hide Elements, Distinct, SumSizes;
    forall i | 0 <= i < |d.pool|
      ensures InOrder(d, d.pool[i])
    {
      assert InOrder(c, c.pool[i + 1]);
    }
  }

  lemma SendingKeepsPool(c: Chain, nonce: nat, tx: Tx, bump: bool)
    requires PoolInOrder(c) && MaySend(c, tx) && nonce <= c.Pending()
    ensures PoolInOrder(Sent(c, nonce, tx, bump))
  {
    var d := Sent(c, nonce, tx, bump);
    hide Elements, Distinct;
    forall i | 0 <= i < |d.pool|
      ensures InOrder(d, d.pool[i])
    {
      assert d.pool[i] == tx || InOrder(c, c.pool[i]);
    }
  }

  lemma LandingKeepsInvariant(c: Chain, ok: bool)
    requires Invariant(c) && c.pool != [] && (ok ==> Accepts(c, c.pool[0]))
    ensures Invariant(Landed(c, ok))
  {
    assert InOrder(c, c.pool[0]);
    if !c.revised {
      BytesAreBounded(c);
    }
    LandingKeepsAdoptedOnce(c, ok);
    LandingKeepsCover(c, ok);
    LandingIsInOrder(c, ok);
    LandingKeepsAtMostOnce(c, ok);
    LandingKeepsLasting(c, ok);
    LandingKeepsPool(c, ok);
    StepKeepsBounded(c, LandHead(ok));
    hide AdoptedOnce, LandedInOrder, AtMostOnce, Lasting, PoolInOrder, PointOfNoReturn, InOrder, Bounded, Elements,
         SumSizes;
  }

  lemma OnlyPoolIsSent(c: Chain, nonce: nat, tx: Tx, bump: bool)
    requires nonce <= c.Pending()
    ensures Sent(c, nonce, tx, bump).(pool := c.pool) == c
  {
  }

  lemma SendingKeepsInvariant(c: Chain, nonce: nat, tx: Tx, bump: bool)
    requires Invariant(c) && MaySend(c, tx) && nonce <= c.Pending()
    ensures Invariant(Sent(c, nonce, tx, bump))
  {
    hide PoolInOrder, Bounded, MaySend, Safe, Sent, Elements;
    SendingKeepsPool(c, nonce, tx, bump);
    assert Bounded(Sent(c, nonce, tx, bump)) by {
      StepKeepsBounded(c, Submit(nonce, tx, bump));
    }
    OnlyPoolIsSent(c, nonce, tx, bump);
    OnlyPoolDiffers(c, Sent(c, nonce, tx, bump));
  }

  lemma OnlyPoolDiffers(c: Chain, d: Chain)
    requires Safe(c) && d.(pool := c.pool) == c
    ensures Safe(d)
  {
    hide Elements, Distinct, SumSizes, AdoptedIn, FoundInOrder;
  }

  lemma StepKeepsInvariant(c: Chain, e: Event)
    requires Invariant(c) && Admissible(c, e)
    ensures Invariant(Step(c, e))
  {
    hide Invariant, MaySend, Landed, Sent;
    match e
    case LandHead(ok) => LandingKeepsInvariant(c, ok);
    case Submit(nonce, tx, bump) => SendingKeepsInvariant(c, nonce, tx, bump);
    case _ => WorldKeepsInvariant(c, e);
  }

  lemma WorldKeepsInvariant(c: Chain, e: Event)
    requires Invariant(c) && Admissible(c, e) && !e.Submit? && !e.LandHead?
    ensures Invariant(Step(c, e))
  {
    hide Elements, Distinct, SumSizes, AdoptedIn, Bounded, LeastSize, MostSize;
    var d := Step(c, e);
    StepKeepsBounded(c, e);
    if e.TermsChange? && c.paddingBps <= e.paddingBps {
      PaddingWidens(c.requested, c.paddingBps, e.paddingBps);
    }
    assert d.log == c.log && d.registered == c.registered;
    forall i | 0 <= i < |d.pool|
      ensures InOrder(d, d.pool[i])
    {
      if i < |c.pool| {
        assert d.pool[i] == c.pool[i] && InOrder(c, c.pool[i]);
      }
    }
  }

  /** Safety of the whole migration: along every legal sequence of events the invariant holds. */
  lemma {:induction false} LegalRunsAreSafe(c: Chain, events: seq<Event>)
    requires Fresh(c) && Legal(c, events)
    ensures Invariant(Run(c, events))
  {
    if events == [] {
      FreshIsSafe(c);
    } else {
      var before := events[..|events| - 1];
      LegalRunsAreSafe(c, before);
      StepKeepsInvariant(Run(c, before), events[|events| - 1]);
    }
  }

  function LastPadding(start: Chain, events: seq<Event>): nat {
    if events == [] then start.paddingBps
    else
      var last := events[|events| - 1];
      if last.TermsChange? then last.paddingBps else LastPadding(start, events[..|events| - 1])
  }

  /** The requested size stays as it is, and the padding is never lowered. */
  predicate TermsOnlyWiden(start: Chain, events: seq<Event>) {
    events != [] ==>
      var before, last := events[..|events| - 1], events[|events| - 1];
      && TermsOnlyWiden(start, before)
      && (last.TermsChange? ==> last.requested == start.requested && LastPadding(start, before) <= last.paddingBps)
  }

  predicate TermsAsIn(start: Chain, c: Chain, paddingBps: nat) {
    && c.requested == start.requested && start.paddingBps <= c.paddingBps == paddingBps && !c.revised
    && forall i :: 0 <= i < |c.log| && c.log[i].tx.FinishPosting? ==>
         var v := c.log[i].view;
         v.requested == start.requested && start.paddingBps <= v.paddingBps <= paddingBps && !v.revised
  }

  lemma TermsStep(start: Chain, c: Chain, paddingBps: nat, e: Event)
    requires TermsAsIn(start, c, paddingBps) && Admissible(c, e)
    requires e.TermsChange? ==> e.requested == start.requested && paddingBps <= e.paddingBps
    ensures TermsAsIn(start, Step(c, e), if e.TermsChange? then e.paddingBps else paddingBps)
  {
    hide Elements, Distinct, SumSizes, MaySend;
    var d := Step(c, e);
    assert forall i :: 0 <= i < |d.log| ==>
             d.log[i] == if i < |c.log| then c.log[i] else Receipt(c.pool[0], e.ok, c.Look());
  }

  lemma {:induction false} TermsStay(start: Chain, events: seq<Event>)
    requires Fresh(start) && Legal(start, events) && TermsOnlyWiden(start, events)
    ensures TermsAsIn(start, Run(start, events), LastPadding(start, events))
  {
    if events != [] {
      var before := events[..|events| - 1];
      TermsStay(start, before);
      TermsStep(start, Run(start, before), LastPadding(start, before), events[|events| - 1]);
      hide TermsAsIn, Admissible, Step;
    }
  }

  /** While the requested size stays as it is and the padding is not lowered, every finish that lands with success finds
      all V1 claims registered and the adapter's bytes within the padding of then, whatever is in flight when they are
      read. */
  lemma FinishesWithinPadding(start: Chain, events: seq<Event>, i: nat)
    requires Fresh(start) && Legal(start, events) && TermsOnlyWiden(start, events)
    requires i < |Run(start, events).log| && Run(start, events).log[i].tx == FinishPosting &&
             Run(start, events).log[i].ok
    ensures var view := Run(start, events).log[i].view;
            && SizeWithinPadding(view.allocatedBytes, start.requested, view.paddingBps)
            && start.paddingBps <= view.paddingBps <= LastPadding(start, events)
            && Elements(view.v1) <= Elements(view.registered)
  {
    LegalRunsAreSafe(start, events);
    TermsStay(start, events);
    assert FoundInOrder(Run(start, events).log[i]);
  }

  // ---- the world's steps between two steps of the tool ----

  /** What can be said of a later chain when only the world moved. */
  ghost predicate Since(a: Chain, b: Chain) {
    SinceQueue(a, b) && SinceClaims(a, b) && SinceRail(a, b)
  }

  /** The counts only grow, a pending transaction keeps its nonce until it lands, and new ones are unrelated. */
  ghost predicate SinceQueue(a: Chain, b: Chain) {
    && a.log <= b.log && a.Pending() <= b.Pending()
    && (forall n :: b.Latest() <= n < b.Pending() ==> TxAt(b, n) == TxAt(a, n))
    && (forall n :: a.Latest() <= n < b.Latest() ==> b.log[n].tx == TxAt(a, n))
  }

  /** The V1 claims only shrink and the registered ids only grow, not even that without a pending adoption, and all
      within one list; until the terms are revised, the padding only grows. */
  ghost predicate SinceClaims(a: Chain, b: Chain) {
    && b.origin == a.origin && b.sizes == a.sizes
    && Elements(b.v1) <= Elements(a.v1)
    && a.registered <= b.registered && a.allocatedBytes <= b.allocatedBytes
    && (forall claims :: Encloses(a, claims) ==> Encloses(b, claims))
    && (!b.revised ==> !a.revised && b.requested == a.requested && a.paddingBps <= b.paddingBps)
    && (a.postingFinished ==> b.postingFinished)
    && (a.wasActive ==> b.wasActive)
    && (a.Inert() ==>
          && b.Inert() && b.registered == a.registered && b.allocatedBytes == a.allocatedBytes
          && a.Latest() <= b.Latest()
          && forall n :: a.Latest() <= n < b.Latest() ==> b.log[n].view.allocatedBytes == a.allocatedBytes)
  }

  /** The epoch only grows, a terminated rail stays so, and an open one keeps at most its lockup. */
  ghost predicate SinceRail(a: Chain, b: Chain) {
    && a.epoch <= b.epoch
    && (a.rail.Open? && b.rail.Open? ==> b.rail.lockup <= a.rail.lockup)
    && (a.rail.Ended? ==> !b.rail.Open? && b.rail.endEpoch == a.rail.endEpoch)
    && (a.rail.Finalized? ==> b.rail == a.rail)
  }

  /** The pending transaction of a nonce; those of the future are unrelated unless the tool sends one. */
  function TxAt(c: Chain, nonce: nat): Tx {
    if c.Latest() <= nonce < c.Pending() then c.pool[nonce - c.Latest()] else Unrelated
  }

  lemma SinceSelf(c: Chain)
    ensures Since(c, c)
  {
  }

  lemma QueueMoves(c: Chain, e: Event)
    requires WorldMay(c, e)
    ensures SinceQueue(c, Step(c, e))
  {
    hide Elements, Distinct, SumSizes, MaySend, Accepts;
  }

  lemma EnclosuresMove(c: Chain, e: Event)
    requires WorldMay(c, e)
    ensures forall claims :: Encloses(c, claims) ==> Encloses(Step(c, e), claims)
  {
    forall claims | Encloses(c, claims)
      ensures Encloses(Step(c, e), claims)
    {
      WorldKeepsEnclosure(c, e, claims);
    }
  }

  lemma LandingOfNone(c: Chain, ok: bool)
    requires c.pool != [] && (ok ==> Accepts(c, c.pool[0])) && c.Inert()
    ensures Landed(c, ok).registered == c.registered && Landed(c, ok).allocatedBytes == c.allocatedBytes &&
            Landed(c, ok).Inert()
  {
    if c.pool[0].Adopt? {
      assert c.registered + c.pool[0].batch == c.registered;
    }
  }

  lemma LandingMovesClaims(c: Chain, ok: bool)
    requires c.pool != [] && (ok ==> Accepts(c, c.pool[0]))
    requires forall claims :: Encloses(c, claims) ==> Encloses(Landed(c, ok), claims)
    ensures SinceClaims(c, Landed(c, ok))
  {
    if c.Inert() {
      LandingOfNone(c, ok);
    }
    var d := Landed(c, ok);
    hide Distinct, Elements, Encloses, LeastSize, MostSize, SumSizes;
    assert d.log == c.log + [Receipt(c.pool[0], ok, c.Look())] && c.registered <= d.registered &&
           c.allocatedBytes <= d.allocatedBytes;
  }

  lemma ClaimsMove(c: Chain, e: Event)
    requires WorldMay(c, e)
    ensures SinceClaims(c, Step(c, e))
  {
    EnclosuresMove(c, e);
    hide Distinct, Elements, Encloses, MaySend, LeastSize, MostSize;
    if e.LandHead? {
      LandingMovesClaims(c, e.ok);
      hide SinceClaims;
    }
  }

  lemma SinceStep(c: Chain, e: Event)
    requires WorldMay(c, e)
    ensures Since(c, Step(c, e))
  {
    QueueMoves(c, e);
    ClaimsMove(c, e);
    hide SinceQueue, SinceClaims, Elements, Distinct, SumSizes, MaySend;
  }

  lemma SinceTransitive(a: Chain, b: Chain, c: Chain)
    requires Since(a, b) && Since(b, c)
    ensures Since(a, c)
  {
    hide Encloses, LeastSize, MostSize, Elements;
    assert SinceQueue(a, c);
  }

  lemma SinceQuiet(a: Chain, b: Chain)
    requires Since(a, b) && a.Quiet()
    ensures b.Quiet()
  {
    forall i | 0 <= i < |b.pool|
      ensures !b.pool[i].Adopt?
    {
      assert b.pool[i] == TxAt(b, b.Latest() + i);
    }
  }

  /** What the tool may send, it may still send after the world moved. */
  lemma MaySendLasts(a: Chain, b: Chain, tx: Tx)
    requires Since(a, b) && MaySend(a, tx)
    ensures MaySend(b, tx)
  {
    if !b.revised {
      PaddingWidens(a.requested, a.paddingBps, b.paddingBps);
    }
    if tx.Adopt? {
      SinceQuiet(a, b);
      hide Encloses;
      var claims :| Holds(a, claims, tx.batch);
      assert Holds(b, claims, tx.batch);
    } else if a.Covered() {
      assert Elements(a.registered) <= Elements(b.registered);
    }
  }

  /** An open rail read with a short enough lockup, or with `force`, may be terminated later on. */
  lemma MayTerminate(read: Chain, c: Chain, force: bool)
    requires Since(read, c) && read.rail.Open? && (force || read.rail.lockup <= MAX_V1_NOTICE_EPOCHS)
    requires c.Covered() && c.wasActive
    ensures MaySend(c, TerminateRail(force))
  {
  }

  /** A terminated rail may be settled once its end epoch has been observed to pass. */
  lemma MaySettle(read: Chain, c: Chain)
    requires Since(read, c) && read.rail.Ended? && read.rail.endEpoch < c.epoch
    ensures MaySend(c, SettleRail)
  {
  }

  /** Once a pending adoption has landed, no other one is in flight. */
  lemma LandedIsQuiet(a: Chain, b: Chain, nonce: nat)
    requires PoolInOrder(a) && Since(a, b) && a.Latest() <= nonce < a.Pending() && TxAt(a, nonce).Adopt?
    requires nonce < b.Latest()
    ensures b.Quiet()
  {
    forall i | 0 <= i < |b.pool|
      ensures !b.pool[i].Adopt?
    {
      assert b.pool[i] == TxAt(b, b.Latest() + i);
    }
  }

  // ---- what safety says of the log ----

  lemma {:induction false} BatchIsIn(log: seq<Receipt>, i: nat)
    requires i < |log| && log[i].ok && log[i].tx.Adopt?
    ensures Elements(log[i].tx.batch) <= Elements(AdoptedIn(log))
  {
    var init, last := log[..|log| - 1], log[|log| - 1];
    ElementsConcat(AdoptedIn(init), if last.ok && last.tx.Adopt? then last.tx.batch else []);
    hide Elements;
    if i < |init| {
      BatchIsIn(init, i);
    }
  }

  /** No claim is in two batches that landed, and none is twice in one. */
  lemma {:induction false} NoClaimAdoptedTwice(log: seq<Receipt>, i: nat, j: nat)
    requires Distinct(AdoptedIn(log)) && i < j < |log|
    requires log[i].ok && log[i].tx.Adopt? && log[j].ok && log[j].tx.Adopt?
    ensures Elements(log[i].tx.batch) !! Elements(log[j].tx.batch)
    ensures Distinct(log[j].tx.batch)
  {
    var init, last := log[..|log| - 1], log[|log| - 1];
    DistinctConcat(AdoptedIn(init), if last.ok && last.tx.Adopt? then last.tx.batch else []);
    hide Elements, Distinct;
    if j < |init| {
      NoClaimAdoptedTwice(init, i, j);
    } else {
      BatchIsIn(init, i);
    }
  }

  /** Without `--force` the V1 rail ends at most two days after its termination, and the final settlement comes after
      that end; there is one of each at most. */
  lemma NoticeIsBounded(c: Chain, i: nat)
    requires Safe(c) && i < |c.log| && c.log[i].ok && c.log[i].tx.TerminateRail?
    ensures c.Covered() && c.log[i].view.wasActive && !c.rail.Open?
    ensures Elements(c.log[i].view.v1) <= Elements(c.log[i].view.registered)
    ensures !c.log[i].tx.force ==> c.rail.endEpoch <= c.log[i].view.epoch + 2 * 2880
    ensures forall j :: 0 <= j < |c.log| && j != i && c.log[j].ok ==> !c.log[j].tx.TerminateRail?
    ensures forall j :: 0 <= j < |c.log| && c.log[j].ok && c.log[j].tx.SettleRail? ==>
              c.log[j].view.rail.endEpoch < c.log[j].view.epoch
  {
    assert FoundInOrder(c.log[i]) && PointOfNoReturn(c);
    forall j | 0 <= j < |c.log| && c.log[j].ok && c.log[j].tx.SettleRail?
      ensures c.log[j].view.rail.endEpoch < c.log[j].view.epoch
    {
      assert FoundInOrder(c.log[j]);
    }
  }

  // ---- the two ways of reading the counts ----

  /** Equal confirmed and pending counts, read one after the other, mean that nothing landed in between and nothing is
      in flight at the second read. */
  lemma EqualCountsMeanQuiet(first: Chain, second: Chain)
    requires Since(first, second)
    ensures second.Pending() == first.Latest() <==> second.pool == [] && second.Latest() == first.Latest()
  {
  }

  /** The guard under which the nested wait loops stop: a pending count that does not exceed an older confirmed one. */
  lemma WaitEndsQuiet(first: Chain, second: Chain)
    requires Since(first, second) && second.Pending() <= first.Latest()
    ensures second.pool == [] && second.Pending() == second.Latest()
  {
  }

  // ---- why the guards stand where they stand ----

  /** A batch found unregistered while no adoption is in flight may be sent at any later time. */
  lemma UnregisteredStaysSo(read: Chain, send: Chain, batch: seq<nat>, claims: seq<nat>)
    requires Since(read, send) && read.Quiet() && Encloses(read, claims) && Elements(batch) <= Elements(claims)
    requires Distinct(batch) && Elements(batch) !! Elements(read.registered)
    ensures MaySend(send, Adopt(batch))
  {
    assert Holds(read, claims, batch);
    assert Elements(batch) <= Elements(claims) <= read.origin;
    MaySendLasts(read, send, Adopt(batch));
  }

  /** With the adoption of a killed run in flight at that read, a no-pending check at the send comes too late: the
      adoption lands in between, the check passes, and the claim is registered twice. */
  lemma CheckAtSendIsTooLate(read: Chain, id: nat)
    requires read.pool == [Adopt([id])] && id !in read.registered
    ensures var send := Step(read, LandHead(true));
            && Elements([id]) !! Elements(read.registered)
            && Since(read, send) && send.Pending() == send.Latest()
            && !Distinct(Landed(Sent(send, send.Latest(), Adopt([id]), false), true).registered)
  {
    SinceStep(read, LandHead(true));
    var send := Step(read, LandHead(true));
    var ids := Landed(Sent(send, send.Latest(), Adopt([id]), false), true).registered;
    assert ids == read.registered + [id] + [id];
    assert ids[|read.registered|] == ids[|read.registered| + 1];
  }

  lemma Continue(c: Chain, events: seq<Event>, e: Event)
    requires Legal(c, events) && Admissible(Run(c, events), e)
    ensures Legal(c, events + [e]) && Run(c, events + [e]) == Step(Run(c, events), e)
  {
    assert (events + [e])[..|events|] == events;
  }

  /** The adapter refused any adoption that would have taken it beyond the requested size. */
  predicate AdapterCapped(c: Chain) {
    forall i :: 0 <= i < |c.log| && c.log[i].ok && c.log[i].tx.Adopt? ==>
      c.log[i].view.allocatedBytes + SumSizes(c.sizes, c.log[i].tx.batch) <= c.log[i].view.requested
  }

  /** A run in which a finish misses the padding that it was checked against, although neither has changed since the
      check. It takes an admin who makes the V2 deal smaller after its size was compared with the planned claims and
      before the first of them lands, a V1 deal that drops the claim whose adoption is in flight when the bytes are
      read, and an adapter that then accepts bytes beyond the requested size. */
  lemma FinishCanMissPadding() returns (start: Chain, events: seq<Event>, read: nat)
    ensures Fresh(start) && Legal(start, events) && read < |events| && Legal(start, events[..read])
    ensures var atRead, end := Run(start, events[..read]), Run(start, events);
            && atRead.Covered() && !atRead.postingFinished && atRead.revised
            && SizeWithinPadding(atRead.allocatedBytes, atRead.requested, atRead.paddingBps)
            && end.log != [] && !AdapterCapped(end)
            && var finish := end.log[|end.log| - 1];
            && finish.tx == FinishPosting && finish.ok
            && finish.view.requested == atRead.requested && finish.view.paddingBps == atRead.paddingBps
            && !SizeWithinPadding(finish.view.allocatedBytes, atRead.requested, atRead.paddingBps)
  {
    var atRead;
    start, events, atRead := RaceToRead();
    read := |events|;
    var beforeRead := events;
    hide Run, Legal;
    events := RaceEnds(start, events, atRead);
    assert events[..read] == beforeRead;
  }

  const RACE_SIZES: map<nat, nat> := map[1 := 100, 2 := 100]

  /** The V2 deal is made half as large while the adoption of the first of two claims is in flight. */
  const RACE_START: Chain :=
    Chain(1, {1, 2}, RACE_SIZES, [1, 2], [], 0, 200, 0, false, false, Accepted, false, Open(0), [], [])

  /** The first adoption landed on the smaller deal. */
  const RACE_FIRST: Receipt := Receipt(Adopt([1]), true, RACE_START.(requested := 100, revised := true).Look())

  const RACE_LANDED: Chain := RACE_START.(requested := 100, revised := true, registered := [1], allocatedBytes := 100,
                                          log := [RACE_FIRST])

  /** The adoption of the second claim is in flight, and the V1 deal has dropped it. */
  const RACE_READ: Chain := RACE_LANDED.(v1 := [1], pool := [Adopt([2])])

  lemma RaceFacts()
    ensures SumSizes(RACE_SIZES, [1]) == 100 && SumSizes(RACE_SIZES, [2]) == 100 && SumSizes(RACE_SIZES, [1, 2]) == 200
    ensures Elements<nat>([1, 2]) == {1, 2} && Elements<nat>([1]) == {1} && Elements<nat>([2]) == {2}
    ensures Elements<nat>([]) == {}
  {
    assert [1, 2][..1] == [1];
  }

  lemma FirstMayBeSent()
    ensures Fresh(RACE_START) && MaySend(RACE_START, Adopt([1]))
  {
    RaceFacts();
    hide Elements, SumSizes;
    assert Holds(RACE_START, [1, 2], [1]);
  }

  lemma SecondMayBeSent()
    ensures MaySend(RACE_LANDED, Adopt([2]))
  {
    RaceFacts();
    hide Elements, SumSizes;
    assert Holds(RACE_LANDED, [1, 2], [2]);
  }

  lemma FirstLands(c: Chain)
    requires c == RACE_START.(requested := 100, revised := true, pool := [Adopt([1])])
    ensures Admissible(c, LandHead(true)) && Step(c, LandHead(true)) == RACE_LANDED
  {
    RaceFacts();
    hide Elements, SumSizes, Fresh;
    assert [] + [RACE_FIRST] == [RACE_FIRST] && c.Look() == RACE_FIRST.view;
  }

  lemma SecondIsDropped(c: Chain)
    requires c == RACE_LANDED.(pool := [Adopt([2])])
    ensures Admissible(c, V1Drops([1])) && Step(c, V1Drops([1])) == RACE_READ
  {
    RaceFacts();
    hide Elements, SumSizes;
  }

  lemma RaceToRead() returns (start: Chain, events: seq<Event>, atRead: Chain)
    ensures Fresh(start) && Legal(start, events) && Run(start, events) == atRead == RACE_READ
  {
    start := RACE_START;
    var first, smaller, second := Submit(0, Adopt([1]), false), TermsChange(100, 0), Submit(1, Adopt([2]), false);
    events := [];
    assert Legal(start, events) && Run(start, events) == start;
    FirstMayBeSent();
    hide Run, Legal, MaySend, Fresh;
    Continue(start, events, first);
    events := events + [first];
    Continue(start, events, smaller);
    events := events + [smaller];
    FirstLands(Run(start, events));
    Continue(start, events, LandHead(true));
    events := events + [LandHead(true)];
    SecondMayBeSent();
    Continue(start, events, second);
    events := events + [second];
    SecondIsDropped(Run(start, events));
    Continue(start, events, V1Drops([1]));
    events := events + [V1Drops([1])];
    atRead := RACE_READ;
  }

  lemma RaceEnds(start: Chain, events: seq<Event>, atRead: Chain) returns (more: seq<Event>)
    requires Legal(start, events) && Run(start, events) == atRead == RACE_READ
    ensures Legal(start, more) && events < more
    ensures atRead.Covered() && !atRead.postingFinished && atRead.revised
    ensures SizeWithinPadding(atRead.allocatedBytes, atRead.requested, atRead.paddingBps)
    ensures var end := Run(start, more);
            && end.log != [] && !AdapterCapped(end)
            && var finish := end.log[|end.log| - 1];
            && finish.tx == FinishPosting && finish.ok
            && finish.view.requested == atRead.requested && finish.view.paddingBps == atRead.paddingBps
            && !SizeWithinPadding(finish.view.allocatedBytes, atRead.requested, atRead.paddingBps)
  {
    RaceFacts();
    hide Run, Legal, Elements, SumSizes;
    Continue(start, events, LandHead(true));
    var landed := Step(atRead, LandHead(true));
    ElementsConcat<nat>([1], [2]);
    assert landed.Covered() && landed.pool == [] && landed.allocatedBytes == 200;
    more := SendAndLand(start, events + [LandHead(true)], FinishPosting);
    assert Run(start, more).log[1] == Receipt(Adopt([2]), true, atRead.Look());
  }

  /** The batch of the adoption in flight; there is one at most. */
  function PendingBatch(pool: seq<Tx>): seq<nat> {
    if pool == [] then []
    else if pool[0].Adopt? then pool[0].batch
    else PendingBatch(pool[1..])
  }

  predicate NoAdoptions(events: seq<Event>) {
    forall i :: 0 <= i < |events| && events[i].Submit? ==> !events[i].tx.Adopt?
  }

  /** The only adoption that may be in flight is of this batch, and the bytes are the given ones, or those with the
      batch once it has landed. */
  predicate BytesOrMore(c: Chain, bytes: nat, batch: seq<nat>) {
    && (forall i :: 0 <= i < |c.pool| && c.pool[i].Adopt? ==> c.pool[i].batch == batch)
    && (forall i, j :: 0 <= i < j < |c.pool| ==> !(c.pool[i].Adopt? && c.pool[j].Adopt?))
    && (c.allocatedBytes == bytes || (c.allocatedBytes == bytes + SumSizes(c.sizes, batch) && c.Quiet()))
  }

  lemma {:induction false} AdoptionsArePending(pool: seq<Tx>, i: nat)
    requires i < |pool| && pool[i].Adopt? && forall j, k :: 0 <= j < k < |pool| ==> !(pool[j].Adopt? && pool[k].Adopt?)
    ensures PendingBatch(pool) == pool[i].batch
  {
    if !pool[0].Adopt? {
      AdoptionsArePending(pool[1..], i - 1);
    }
  }

  lemma LandingKeepsBytes(c: Chain, ok: bool, bytes: nat, batch: seq<nat>)
    requires BytesOrMore(c, bytes, batch) && c.pool != [] && (ok ==> Accepts(c, c.pool[0]))
    ensures BytesOrMore(Landed(c, ok), bytes, batch)
  {
    hide SumSizes;
    assert forall i :: 0 <= i < |c.pool[1..]| ==> c.pool[1..][i] == c.pool[i + 1];
  }

  lemma SendingKeepsBytes(c: Chain, nonce: nat, tx: Tx, bump: bool, bytes: nat, batch: seq<nat>)
    requires BytesOrMore(c, bytes, batch) && nonce <= c.Pending() && !tx.Adopt?
    ensures BytesOrMore(Sent(c, nonce, tx, bump), bytes, batch)
  {
    hide SumSizes;
  }

  lemma OthersKeepBytes(c: Chain, e: Event, bytes: nat, batch: seq<nat>)
    requires BytesOrMore(c, bytes, batch) && WorldMay(c, e) && !e.LandHead?
    ensures BytesOrMore(Step(c, e), bytes, batch)
  {
    hide Elements, SumSizes;
    var d := Step(c, e);
    assert d.allocatedBytes == c.allocatedBytes && (d.pool == c.pool || d.pool == c.pool + [Unrelated]);
  }

  lemma StepKeepsBytes(c: Chain, e: Event, bytes: nat, batch: seq<nat>)
    requires BytesOrMore(c, bytes, batch) && Admissible(c, e) && (e.Submit? ==> !e.tx.Adopt?)
    ensures BytesOrMore(Step(c, e), bytes, batch) && Step(c, e).sizes == c.sizes
  {
    hide Elements, Distinct, SumSizes, MaySend, BytesOrMore;
    if e.LandHead? {
      LandingKeepsBytes(c, e.ok, bytes, batch);
    } else if e.Submit? {
      SendingKeepsBytes(c, e.nonce, e.tx, e.bump, bytes, batch);
    } else {
      OthersKeepBytes(c, e, bytes, batch);
    }
  }

  lemma {:induction false} RunKeepsBytes(c: Chain, events: seq<Event>)
    requires PoolInOrder(c) && Legal(c, events) && NoAdoptions(events)
    ensures BytesOrMore(Run(c, events), c.allocatedBytes, PendingBatch(c.pool)) && Run(c, events).sizes == c.sizes
  {
    hide Elements, Distinct, SumSizes, InOrder;
    if events == [] {
      forall i | 0 <= i < |c.pool| && c.pool[i].Adopt?
        ensures c.pool[i].batch == PendingBatch(c.pool)
      {
        AdoptionsArePending(c.pool, i);
      }
    } else {
      var before := events[..|events| - 1];
      RunKeepsBytes(c, before);
      StepKeepsBytes(Run(c, before), events[|events| - 1], c.allocatedBytes, PendingBatch(c.pool));
    }
  }

  /** The pending adoption lands, and whatever is before it reverts. */
  lemma PendingLands(c: Chain) returns (events: seq<Event>)
    ensures Legal(c, events) && NoAdoptions(events)
    ensures Run(c, events).allocatedBytes == c.allocatedBytes + SumSizes(c.sizes, PendingBatch(c.pool))
  {
    hide Elements, Distinct, InOrder;
    events := [];
    var d := c;
    while d.pool != []
      invariant Legal(c, events) && NoAdoptions(events) && Run(c, events) == d
      invariant d.allocatedBytes == c.allocatedBytes && d.sizes == c.sizes &&
                PendingBatch(d.pool) == PendingBatch(c.pool)
      decreases |d.pool|
    {
      var e := LandHead(d.pool[0].Adopt?);
      Continue(c, events, e);
      events := events + [e];
      if d.pool[0].Adopt? {
        return;
      }
      d := Step(d, e);
    }
  }

  /** Whatever happens from here on, short of another broadcast of an adoption, the bytes are within the padding. */
  ghost predicate StaysWithinPadding(c: Chain, requested: nat, paddingBps: nat) {
    forall events | Legal(c, events) && NoAdoptions(events) ::
      SizeWithinPadding(Run(c, events).allocatedBytes, requested, paddingBps)
  }

  lemma WithinInstance(c: Chain, events: seq<Event>, requested: nat, paddingBps: nat)
    requires StaysWithinPadding(c, requested, paddingBps) && Legal(c, events) && NoAdoptions(events)
    ensures SizeWithinPadding(Run(c, events).allocatedBytes, requested, paddingBps)
  {
  }

  /** The bytes stay within the padding after they are read, at the finish included, exactly when they are within it at
      the read both with and without the adoption in flight; `finish-migration` checks the latter only. */
  lemma PaddingHoldsExactlyWhen(read: Chain, requested: nat, paddingBps: nat)
    requires PoolInOrder(read)
    ensures StaysWithinPadding(read, requested, paddingBps)
            <==> (&& SizeWithinPadding(read.allocatedBytes, requested, paddingBps)
                  && SizeWithinPadding(read.allocatedBytes + SumSizes(read.sizes, PendingBatch(read.pool)),
                                       requested, paddingBps))
  {
    var none: seq<Event> := [];
    assert Legal(read, none) && NoAdoptions(none) && Run(read, none) == read;
    hide SizeWithinPadding, SumSizes, PendingBatch, PoolInOrder, Legal, Run, NoAdoptions;
    var landed := PendingLands(read);
    if StaysWithinPadding(read, requested, paddingBps) {
      WithinInstance(read, none, requested, paddingBps);
      WithinInstance(read, landed, requested, paddingBps);
    }
    forall events | Legal(read, events) && NoAdoptions(events)
      ensures Run(read, events).allocatedBytes == read.allocatedBytes
              || Run(read, events).allocatedBytes == read.allocatedBytes + SumSizes(read.sizes, PendingBatch(read.pool))
    {
      RunKeepsBytes(read, events);
    }
  }

  /** Unless the terms have been revised since before the first adoption, what `finish-migration` checks is exactly
      enough: an adoption in flight cannot take the bytes out of the padding. */
  lemma FinishCheckSuffices(read: Chain)
    requires Invariant(read) && !read.revised
    ensures StaysWithinPadding(read, read.requested, read.paddingBps)
            <==> SizeWithinPadding(read.allocatedBytes, read.requested, read.paddingBps)
  {
    PendingIsBounded(read);
    hide Invariant, StaysWithinPadding, SumSizes, PendingBatch, MostSize, LeastSize;
    assert PoolInOrder(read) by {
      InvariantHasPool(read);
    }
    PaddingHoldsExactlyWhen(read, read.requested, read.paddingBps);
  }

  lemma InvariantHasPool(c: Chain)
    requires Invariant(c)
    ensures PoolInOrder(c)
  {
  }

  /** The registered bytes are not above what is accepted, and would not be with the adoption in flight. */
  lemma PendingIsBounded(c: Chain)
    requires Invariant(c) && !c.revised
    ensures (c.allocatedBytes + SumSizes(c.sizes, PendingBatch(c.pool))) * MAX_BPS <= c.Most()
  {
    var batch := PendingBatch(c.pool);
    if c.Quiet() {
      NoPendingBatch(c.pool);
      BytesAreBounded(c);
    } else {
      var i :| 0 <= i < |c.pool| && c.pool[i].Adopt?;
      AdoptionsArePending(c.pool, i);
      assert InOrder(c, c.pool[i]);
      var claims :| Encloses(c, claims);
      hide InOrder, Lasting, AtMostOnce, LandedInOrder, PointOfNoReturn, AdoptedIn, MostSize;
      DistinctConcat(c.registered, batch);
      ElementsConcat(c.registered, batch);
      SumSizesConcat(c.sizes, c.registered, batch);
      SubsetSum(c.sizes, c.registered + batch, claims);
    }
  }

  lemma {:induction false} NoPendingBatch(pool: seq<Tx>)
    requires forall i :: 0 <= i < |pool| ==> !pool[i].Adopt?
    ensures PendingBatch(pool) == []
  {
    if pool != [] {
      NoPendingBatch(pool[1..]);
    }
  }

  // ---- with an adapter that keeps to the requested size ----

  lemma NothingLands(c: Chain, e: Event)
    requires Admissible(c, e) && !e.LandHead?
    ensures var d := Step(c, e);
            && d.log == c.log && d.sizes == c.sizes
            && d.registered == c.registered && d.allocatedBytes == c.allocatedBytes
            && (c.registered != [] ==> d.requested == c.requested)
  {
    hide Elements, Distinct, SumSizes, MaySend, Accepts;
  }

  lemma CappedLanding(c: Chain, ok: bool)
    requires c.pool != [] && (ok ==> Accepts(c, c.pool[0])) && AdapterCapped(Landed(c, ok))
    ensures AdapterCapped(c)
    ensures c.allocatedBytes <= c.requested ==> Landed(c, ok).allocatedBytes <= Landed(c, ok).requested
  {
    hide Elements, Distinct, SumSizes;
    var d := Landed(c, ok);
    assert d.sizes == c.sizes && d.log == c.log + [Receipt(c.pool[0], ok, c.Look())];
    assert forall i :: 0 <= i < |c.log| ==> d.log[i] == c.log[i];
    assert d.log[|c.log|] == Receipt(c.pool[0], ok, c.Look());
  }

  lemma CappedStep(c: Chain, e: Event)
    requires Admissible(c, e) && AdapterCapped(Step(c, e)) && (c.registered == [] ==> c.allocatedBytes == 0)
    ensures AdapterCapped(c)
    ensures c.allocatedBytes <= c.requested ==> Step(c, e).allocatedBytes <= Step(c, e).requested
  {
    if e.LandHead? {
      CappedLanding(c, e.ok);
      hide AdapterCapped, Landed;
    } else {
      NothingLands(c, e);
      hide Step, Admissible;
    }
  }

  lemma {:induction false} CappedBytes(start: Chain, events: seq<Event>)
    requires Fresh(start) && Legal(start, events) && AdapterCapped(Run(start, events))
    ensures Run(start, events).allocatedBytes <= Run(start, events).requested
  {
    if events != [] {
      var before, e := events[..|events| - 1], events[|events| - 1];
      LegalRunsAreSafe(start, before);
      assert Run(start, before).registered == [] ==> Run(start, before).allocatedBytes == 0;
      hide Fresh, AdapterCapped, Invariant, Step, Admissible;
      CappedStep(Run(start, before), e);
      CappedBytes(start, before);
    }
  }

  lemma StepOnEvidence(c: Chain, e: Event)
    requires Admissible(c, e)
    ensures c.allocatedBytes <= Step(c, e).allocatedBytes
    ensures c.registered != [] ==> Step(c, e).registered != [] && Step(c, e).requested == c.requested
  {
    if !e.LandHead? {
      NothingLands(c, e);
      hide Step, Admissible;
    }
  }

  /** Once evidence has landed, the requested size stays, and the bytes only grow. */
  lemma {:induction false} RunOnEvidence(start: Chain, events: seq<Event>, k: nat)
    requires Legal(start, events) && k <= |events|
    ensures Legal(start, events[..k])
    ensures var c, d := Run(start, events[..k]), Run(start, events);
            && c.allocatedBytes <= d.allocatedBytes
            && (c.registered != [] ==> d.registered != [] && d.requested == c.requested)
  {
    if k == |events| {
      assert events[..k] == events;
    } else {
      var before := events[..|events| - 1];
      assert before[..k] == events[..k];
      RunOnEvidence(start, before, k);
      StepOnEvidence(Run(start, before), events[|events| - 1]);
      hide Step, Admissible;
    }
  }

  /** With an adapter that refuses what is beyond the requested size, bytes that are found within the padding stay
      within it, for the terms of that moment, whatever is in flight and whatever becomes of them; no finish misses. */
  lemma CappedAdapterCannotMiss(start: Chain, events: seq<Event>, k: nat)
    requires Fresh(start) && Legal(start, events) && k <= |events| && Legal(start, events[..k])
    requires AdapterCapped(Run(start, events)) && Run(start, events[..k]).registered != []
    requires var read := Run(start, events[..k]);
             SizeWithinPadding(read.allocatedBytes, read.requested, read.paddingBps)
    ensures var read := Run(start, events[..k]);
            SizeWithinPadding(Run(start, events).allocatedBytes, read.requested, read.paddingBps)
  {
    hide Fresh, AdapterCapped, Run;
    CappedBytes(start, events);
    RunOnEvidence(start, events, k);
    var read := Run(start, events[..k]);
    PaddingWidens(read.requested, 0, read.paddingBps);
    assert MostSize(read.requested, 0) == read.requested * MAX_BPS;
  }

  /** The rules leave room for the migration to be completed: from any quiet start with distinct claims of an accepted
      size and an open rail of at most two days' lockup, some legal run registers every claim, finishes, activates,
      terminates and settles. */
  lemma MigrationCanComplete(start: Chain) returns (events: seq<Event>)
    requires Fresh(start) && start.pool == [] && Distinct(start.v1)
    requires SizeWithinPadding(SumSizes(start.sizes, start.v1), start.requested, start.paddingBps)
    requires start.rail.Open? && start.rail.lockup <= MAX_V1_NOTICE_EPOCHS
    ensures Legal(start, events)
    ensures var end := Run(start, events);
            end.registered == start.v1 == end.v1 && end.postingFinished && end.rail.Finalized?
  {
    events := CanAdopt(start);
    events := CanFinish(start, events);
    events := CanTerminate(start, events);
    events := CanSettle(start, events);
  }

  lemma CanAdopt(start: Chain) returns (events: seq<Event>)
    requires Fresh(start) && start.pool == [] && Distinct(start.v1)
    requires SizeWithinPadding(SumSizes(start.sizes, start.v1), start.requested, start.paddingBps)
    ensures Legal(start, events)
    ensures var c := Run(start, events);
            && c.registered == start.v1 == c.v1 && c.pool == [] && c.rail == start.rail
            && c.Least() <= c.allocatedBytes * MAX_BPS
  {
    assert Legal(start, []) && Run(start, []) == start;
    assert Holds(start, start.v1, start.v1);
    hide Run, Legal, Elements, Distinct, SumSizes, Holds, LeastSize, MostSize;
    events := SendAndLand(start, [], Adopt(start.v1));
    assert [] + start.v1 == start.v1;
  }

  lemma CanFinish(start: Chain, events: seq<Event>) returns (more: seq<Event>)
    requires Legal(start, events)
    requires var c := Run(start, events);
             c.registered == c.v1 && c.pool == [] && c.Least() <= c.allocatedBytes * MAX_BPS
    ensures Legal(start, more)
    ensures var c, d := Run(start, events), Run(start, more);
            d.registered == c.registered && d.v1 == c.v1 && d.pool == [] && d.rail == c.rail && d.postingFinished
  {
    hide Run, Legal, Elements, LeastSize;
    more := SendAndLand(start, events, FinishPosting);
  }

  lemma CanTerminate(start: Chain, events: seq<Event>) returns (more: seq<Event>)
    requires Legal(start, events)
    requires var c := Run(start, events);
             && c.registered == c.v1 && c.pool == [] && c.postingFinished
             && c.rail.Open? && c.rail.lockup <= MAX_V1_NOTICE_EPOCHS
    ensures Legal(start, more)
    ensures var c, d := Run(start, events), Run(start, more);
            d.registered == c.registered && d.v1 == c.v1 && d.pool == [] && d.postingFinished && d.rail.Ended?
  {
    hide Run, Legal, Elements;
    Continue(start, events, DealMoves(Active));
    more := SendAndLand(start, events + [DealMoves(Active)], TerminateRail(false));
  }

  lemma CanSettle(start: Chain, events: seq<Event>) returns (more: seq<Event>)
    requires Legal(start, events)
    requires var c := Run(start, events);
             c.registered == c.v1 && c.pool == [] && c.postingFinished && c.rail.Ended?
    ensures Legal(start, more)
    ensures var c, d := Run(start, events), Run(start, more);
            d.registered == c.registered && d.v1 == c.v1 && d.postingFinished && d.rail.Finalized?
  {
    hide Run, Legal, Elements;
    var c := Run(start, events);
    var after := EpochAdvances(c.epoch + c.rail.endEpoch + 1);
    Continue(start, events, after);
    more := SendAndLand(start, events + [after], SettleRail);
  }

  lemma SendAndLand(start: Chain, events: seq<Event>, tx: Tx) returns (more: seq<Event>)
    requires Legal(start, events) && Run(start, events).pool == []
    requires MaySend(Run(start, events), tx) && Accepts(Run(start, events), tx)
    ensures Legal(start, more) && events <= more
    ensures var c := Run(start, events);
            Run(start, more) == Effect(c, tx).(log := c.log + [Receipt(tx, true, c.Look())])
  {
    var c := Run(start, events);
    var submit := Submit(c.Latest(), tx, false);
    SubmitThenLand(c, tx);
    hide Step, Admissible, MaySend, Accepts, Effect, Run, Legal;
    Continue(start, events, submit);
    Continue(start, events + [submit], LandHead(true));
    more := events + [submit] + [LandHead(true)];
  }

  lemma SubmitThenLand(c: Chain, tx: Tx)
    requires c.pool == [] && MaySend(c, tx) && Accepts(c, tx)
    ensures var submit := Submit(c.Latest(), tx, false);
            && Admissible(c, submit) && Step(c, submit) == c.(pool := [tx])
            && Admissible(Step(c, submit), LandHead(true))
            && Step(Step(c, submit), LandHead(true)) == Effect(c, tx).(log := c.log + [Receipt(tx, true, c.Look())])
  {
    hide MaySend, Elements, Distinct, SumSizes;
    assert [tx][1..] == [];
  }
}
