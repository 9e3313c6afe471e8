/** The migration commands of the client, as programs that run against the moving chain of `MigrationChain`.  Each read
    of the chain is an `Observe`: the world moves before it, and the run may be killed at it.  Every broadcast is
    checked against `MaySend`, so that whatever commands are run, however they end, their events form a legal run. */
module MigrationClient {
  import Wrappers
  import opened Lists
  import opened AdoptionPlan
  import opened MigrationChain

  const ADOPTION_BATCH_SIZE: nat := 100
  const SAME_RUN_SETTLEMENT_EPOCHS: nat := 10

  /** What a run asks of its surroundings beside the chain: whether the pair of deals matches and is as far as it
      needs to be, whether the V1 rail pays, whether the V1 deal is this client's, whether the adapter is the
      market's, whether it is switched on, whether the V2 deal's payment rail is prepared, whether the V1 claims are
      of this client and provider and not terminated, whether a preflight call passes, whether the user confirms,
      whether a transaction can be built and is signed after the final prompt, and whether a broadcast replaces a
      pending transaction of its nonce. */
  datatype Question =
    | PairMatches
    | RailPays
    | ClientMatches
    | AdapterMatches
    | AdapterOperational
    | RailPrepared
    | ClaimsAreSound
    | CallPasses(number: nat)
    | Confirms
    | Signs(tx: Tx)
    | Replaces(tx: Tx)

  /** The surroundings of one run: what they answer, the provider's claims, the bytes that the V1 client recorded, the
      terms read back after a batch, the polls before a receipt times out, and the reads before the run is killed. */
  datatype Surroundings = Surroundings(
    yes: Question -> bool,
    reported: map<nat, Claim>,
    recorded: nat,
    readBack: seq<nat> -> map<nat, nat>,
    polls: nat,
    lifetime: nat)

  /** What a run stops for, with the chains that showed it. */
  datatype Reason =
    | StillPending(counted: Chain, read: Chain)
    | NonceTaken(counted: Chain, read: Chain)
    | Reverted(nonce: nat, read: Chain)
    | NoReceipt(nonce: nat, read: Chain)
    | ClaimsMissing(source: Chain, held: Chain)
    | NotAccepted(viewed: Chain)
    | PostingFinished(read: Chain)
    | RailNotOpen(read: Chain)
    | NoSourceClaims(source: Chain)
    | ClaimNotReported(source: Chain, id: nat)
    | BytesNotRecorded(source: Chain)
    | SizeOutsidePadding(viewed: Chain, source: Chain, priced: Chain)
    | PlanRefused(claims: seq<Claim>, source: Chain, held: Chain, timed: Chain, error: MigrationError)
    | BytesDiffer(claims: seq<Claim>, source: Chain, held: Chain, read: Chain)
    | NotEncodable(batch: AdoptionPlan)
    | AlreadyRegistered(batch: AdoptionPlan, read: Chain)
    | ReadBackDiffers(plan: AdoptionPlan, batch: AdoptionPlan, held: Chain, read: Chain)
    | BytesOutsidePadding(viewed: Chain, read: Chain, priced: Chain)
    | NotActive(viewed: Chain)
    | NoticeTooLong(read: Chain)
    | BatchSizeOutOfRange(size: nat)
  {
    predicate OfSending() {
      StillPending? || OfPromptedSending()
    }

    /** Outside a confirmed batch, pending transactions are waited for. */
    predicate OfPromptedSending() {
      NonceTaken? || Reverted? || NoReceipt?
    }

    predicate OfPlanning() {
      NotAccepted? || PostingFinished? || NoSourceClaims? || ClaimNotReported? || BytesNotRecorded?
      || SizeOutsidePadding? || PlanRefused? || BytesDiffer?
    }

    predicate OfBatch() {
      NotEncodable? || AlreadyRegistered? || ReadBackDiffers?
    }
  }

  /** How a run ends: `Killed` when it is interrupted, `Refused` for an answer of its surroundings, `Stopped` for what
      it read. */
  datatype Ending = Completed | Killed | Refused(asked: Question) | Stopped(why: Reason) {

    predicate IsFailure() {
      !Completed?
    }

    function PropagateFailure(): Ending
      requires !Completed?
    {
      this
    }
  }

  datatype Command =
    | Adopting(printOnly: bool, batchSize: nat)
    | Finishing(printOnly: bool)
    | Closing(printOnly: bool, force: bool)

  datatype CommandRun = CommandRun(command: Command, around: Surroundings)

  /** The transactions that the tool broadcasts in a sequence of events. */
  ghost function Broadcasts(events: seq<Event>): seq<Tx> {
    if events == [] then []
    else
      var last := events[|events| - 1];
      Broadcasts(events[..|events| - 1]) + (if last.Submit? then [last.tx] else [])
  }

  /** One transaction for each batch, in order. */
  ghost function BatchTxs(batches: seq<AdoptionPlan>): seq<Tx> {
    seq(|batches|, i requires 0 <= i < |batches| => Adopt(ExtensionIds(batches[i].extensions)))
  }

  // ---- lists of batches ----

  ghost predicate AllWithin(batches: seq<AdoptionPlan>, ids: set<nat>) {
    forall i :: 0 <= i < |batches| ==> DistinctWithin(batches[i].extensions, ids)
  }

  lemma PlanWithin(batches: seq<AdoptionPlan>, ids: set<nat>)
    requires DistinctWithin(AllExtensions(batches), ids)
    ensures AllWithin(batches, ids)
  {
    hide DistinctWithin, AllExtensions;
    forall k | 0 <= k < |batches|
      ensures DistinctWithin(batches[k].extensions, ids)
    {
      BatchesWithin(batches, ids, k);
    }
  }

  ghost predicate RegisteredAll(batches: seq<AdoptionPlan>, registered: set<nat>) {
    forall i :: 0 <= i < |batches| ==> Elements(ExtensionIds(batches[i].extensions)) <= registered
  }

  lemma {:induction false} AllExtensionsRegistered(batches: seq<AdoptionPlan>, registered: set<nat>)
    requires RegisteredAll(batches, registered)
    ensures Elements(ExtensionIds(AllExtensions(batches))) <= registered
  {
    if batches != [] {
      var head, rest := batches[0].extensions, batches[1..];
      assert RegisteredAll(rest, registered);
      AllExtensionsRegistered(rest, registered);
      assert ExtensionIds(head + AllExtensions(rest)) == ExtensionIds(head) + ExtensionIds(AllExtensions(rest));
      ElementsConcat(ExtensionIds(head), ExtensionIds(AllExtensions(rest)));
    }
  }

  lemma NoBatches(batches: seq<AdoptionPlan>, registered: set<nat>)
    ensures BatchTxs(batches[..0]) == [] && RegisteredAll(batches[..0], registered)
  {
  }

  lemma OneMoreBatch(batches: seq<AdoptionPlan>, i: nat)
    requires i < |batches|
    ensures BatchTxs(batches[..i + 1]) == BatchTxs(batches[..i]) + [Adopt(ExtensionIds(batches[i].extensions))]
    ensures BatchTxs(batches[..i]) <= BatchTxs(batches[..i + 1]) <= BatchTxs(batches)
  {
  }

  lemma OneMoreRegistered(batches: seq<AdoptionPlan>, i: nat, before: seq<nat>, after: seq<nat>)
    requires i < |batches| && RegisteredAll(batches[..i], Elements(before)) && before <= after
    requires Elements(ExtensionIds(batches[i].extensions)) <= Elements(after)
    ensures RegisteredAll(batches[..i + 1], Elements(after))
  {
    assert Elements(before) <= Elements(after);
    hide Elements;
    var more := batches[..i + 1];
    forall j | 0 <= j < |more|
      ensures Elements(ExtensionIds(more[j].extensions)) <= Elements(after)
    {
      if j < i {
        assert batches[..i][j] == more[j];
      }
    }
  }

  // ---- what a read says of a later chain ----

  lemma CountsGrow(a: Chain, b: Chain)
    requires Since(a, b)
    ensures a.Latest() <= b.Latest() && a.Pending() <= b.Pending() && a.registered <= b.registered
  {
  }

  lemma EnclosuresKept(a: Chain, b: Chain)
    requires Since(a, b)
    ensures forall claims :: Encloses(a, claims) ==> Encloses(b, claims)
  {
  }

  /** Every list that encloses what is adopted in `a` and holds what the transaction adopts does so in `b`. */
  ghost predicate StaysEnclosed(a: Chain, b: Chain, tx: Tx) {
    forall claims :: Encloses(a, claims) && (tx.Adopt? ==> Elements(tx.batch) <= Elements(claims)) ==>
      Encloses(b, claims)
  }

  lemma EnclosedAround(a: Chain, b: Chain, c: Chain, d: Chain, tx: Tx)
    requires Since(a, b) && StaysEnclosed(b, c, tx) && Since(c, d)
    ensures StaysEnclosed(a, d, tx)
  {
    hide Since, Encloses;
    EnclosuresKept(a, b);
    EnclosuresKept(c, d);
  }

  lemma BytesOfInert(a: Chain, b: Chain)
    requires Since(a, b)
    ensures a.Inert() ==> b.Inert() && b.allocatedBytes == a.allocatedBytes
    ensures a.Inert() ==> forall n :: a.Latest() <= n < b.Latest() ==> b.log[n].view.allocatedBytes == a.allocatedBytes
  {
  }

  lemma InertKept(a: Chain, b: Chain)
    requires Since(a, b) && a.Quiet()
    ensures b.registered == a.registered
  {
  }

  /** Coverage, and then bytes that are not below what is accepted, allow the finish at any later time. */
  lemma MayFinish(viewed: Chain, covered: Chain, read: Chain, c: Chain, requested: nat, paddingBps: nat)
    requires Since(viewed, c) && Since(covered, read) && Since(read, c) && covered.Covered()
    requires requested == viewed.requested && paddingBps == c.paddingBps
    requires SizeWithinPadding(read.allocatedBytes, requested, paddingBps)
    ensures MaySend(c, FinishPosting) && read.Covered()
  {
    assert Elements(covered.registered) <= Elements(read.registered) <= Elements(c.registered);
  }

  /** The finish landed with success: within the padding of the terms then, unless they had been revised, and with the
      bytes that were read, unless an adoption was in flight at that read. */
  ghost predicate FinishLanded(receipt: Receipt, read: Chain) {
    && receipt.tx == FinishPosting && receipt.ok
    && (!receipt.view.revised ==>
          SizeWithinPadding(receipt.view.allocatedBytes, receipt.view.requested, receipt.view.paddingBps))
    && (read.Inert() ==> receipt.view.allocatedBytes == read.allocatedBytes)
  }

  lemma FinishFound(c: Chain, nonce: nat, read: Chain)
    requires Invariant(c) && nonce < c.Latest() && c.log[nonce].tx == FinishPosting && c.log[nonce].ok
    requires read.Inert() ==> c.log[nonce].view.allocatedBytes == read.allocatedBytes
    ensures c.postingFinished && FinishLanded(c.log[nonce], read)
  {
    assert FoundInOrder(c.log[nonce]);
  }

  lemma TerminatedIsNotOpen(c: Chain, nonce: nat)
    requires Invariant(c) && nonce < c.Latest() && c.log[nonce].tx.TerminateRail? && c.log[nonce].ok
    ensures !c.rail.Open?
  {
  }

  lemma OriginStays(c: Chain, e: Event)
    requires Admissible(c, e)
    ensures Step(c, e).origin == c.origin
  {
    hide MaySend, Elements, SumSizes;
  }

  lemma SizesKept(a: Chain, b: Chain)
    requires Since(a, b)
    ensures b.sizes == a.sizes && b.origin == a.origin
  {
  }

  lemma IdsOfSource(claims: seq<Claim>, source: Chain)
    requires ReadFrom(claims, source)
    ensures Elements(Ids(claims)) == Elements(source.v1)
  {
  }

  /** Claims read first are all registered when they are among the ids read later. */
  lemma CoverKept(source: Chain, held: Chain, c: Chain)
    requires Since(source, c) && Since(held, c)
    ensures held.registered <= c.registered
    ensures Elements(source.v1) <= Elements(held.registered) ==> c.Covered()
  {
    assert Elements(held.registered) <= Elements(c.registered);
  }

  lemma RailKept(a: Chain, b: Chain)
    requires Since(a, b)
    ensures !a.rail.Open? ==> !b.rail.Open? && b.rail.endEpoch == a.rail.endEpoch
    ensures a.rail.Finalized? ==> b.rail.Finalized?
    ensures a.epoch <= b.epoch && (a.wasActive ==> b.wasActive) && (a.postingFinished ==> b.postingFinished)
  {
  }

  lemma NarrowerTerms(a: Chain, b: Chain)
    requires Since(a, b)
    ensures !b.revised ==> !a.revised && b.requested == a.requested && a.paddingBps <= b.paddingBps
  {
  }

  // ---- what a run went by ----

  /** What an adoption plan was made from: the chain as it was when the V2 deal, the V1 claims, the padding, the
      registered ids and the epoch were read, one after the other. */
  datatype PlanBasis = PlanBasis(viewed: Chain, source: Chain, priced: Chain, held: Chain, timed: Chain)

  /** The claims are those of the V1 deal in order, of their sizes on chain. */
  ghost predicate ReadFrom(claims: seq<Claim>, source: Chain) {
    && Ids(claims) == source.v1 && Distinct(source.v1)
    && forall i :: 0 <= i < |claims| ==>
         && claims[i].claimId in source.sizes
         && claims[i].size == source.sizes[claims[i].claimId]
  }

  /** The plan is what its basis gives, and the claims are of the size of the V2 deal. */
  ghost predicate MadeFrom(plan: AdoptionPlan, basis: PlanBasis) {
    && ReadFrom(plan.sourceClaims, basis.source)
    && BuildAdoptionPlan(plan.sourceClaims, basis.held.registered, basis.timed.epoch) == Wrappers.Ok(plan)
    && SizeWithinPadding(TotalClaimed(plan.sourceClaims), basis.viewed.requested, basis.priced.paddingBps)
  }

  /** The provider reports all claims of the V1 deal, their bytes are those that the V1 client recorded, and nothing
      else is wrong with them. */
  ghost predicate SourceIsSound(source: Chain, around: Surroundings) {
    && around.yes(ClaimsAreSound) && Elements(source.v1) <= around.reported.Keys
    && SumSizes(source.sizes, source.v1) == around.recorded
  }

  ghost predicate PairIsPaying(around: Surroundings) {
    around.yes(PairMatches) && around.yes(RailPays) && around.yes(ClientMatches)
  }

  ghost predicate PairIsOwn(around: Surroundings) {
    around.yes(PairMatches) && around.yes(ClientMatches)
  }

  /** The reads of a basis followed each other, with nothing of the tool in between. */
  ghost predicate ReadInTurn(from: Chain, basis: PlanBasis) {
    && Since(from, basis.viewed) && Since(basis.viewed, basis.source) && Since(basis.source, basis.priced)
    && Since(basis.priced, basis.held) && Since(basis.held, basis.timed)
  }

  lemma ReadInTurnFrom(from: Chain, basis: PlanBasis)
    requires ReadInTurn(basis.viewed, basis) && Since(from, basis.viewed)
    ensures ReadInTurn(from, basis)
  {
    hide Since;
  }

  lemma StillRead(basis: PlanBasis, seen: set<Chain>, more: set<Chain>)
    requires WasRead(basis, seen) && seen <= more
    ensures WasRead(basis, more)
  {
  }

  /** All that a plan was made from was read. */
  ghost predicate WasRead(basis: PlanBasis, seen: set<Chain>) {
    {basis.viewed, basis.source, basis.priced, basis.held, basis.timed} <= seen
  }

  lemma PlanIsMade(claims: seq<Claim>, plan: AdoptionPlan, basis: PlanBasis, all: seq<nat>)
    requires ReadFrom(claims, basis.source) && Elements(basis.source.v1) <= Elements(all)
    requires BuildAdoptionPlan(claims, basis.held.registered, basis.timed.epoch) == Wrappers.Ok(plan)
    requires SizeWithinPadding(TotalClaimed(claims), basis.viewed.requested, basis.priced.paddingBps)
    ensures MadeFrom(plan, basis) && DistinctWithin(plan.extensions, Elements(all))
    ensures plan.sourceClaims == claims && plan.registeredIds == Elements(basis.held.registered)
    ensures plan.Complete() ==> Elements(basis.source.v1) <= Elements(basis.held.registered)
  {
    hide SizeWithinPadding, TotalClaimed, BuildAdoptionPlan, ReadFrom;
    PlanKeepsClaims(claims, basis.held.registered, basis.timed.epoch);
    PlanPartitions(claims, basis.held.registered, basis.timed.epoch);
    IdsOfSource(claims, basis.source);
  }

  lemma {:induction false} TotalIsSum(claims: seq<Claim>, sizes: map<nat, nat>)
    requires forall i :: 0 <= i < |claims| ==> claims[i].claimId in sizes && claims[i].size == sizes[claims[i].claimId]
    ensures TotalClaimed(claims) == SumSizes(sizes, Ids(claims))
  {
    if claims != [] {
      TotalIsSum(claims[1..], sizes);
      var head: seq<nat> := [claims[0].claimId];
      assert Ids(claims) == head + Ids(claims[1..]);
      SumSizesConcat(sizes, head, Ids(claims[1..]));
      assert SumSizes(sizes, head) == claims[0].size;
    }
  }

  /** The claims of a plan lie in a list that encloses what was adopted: their own, if nothing was, or else the one that
      did before, since the V1 deal only loses claims. */
  lemma PlanIsEnclosed(viewed: Chain, source: Chain, c: Chain, claims: seq<Claim>) returns (all: seq<nat>)
    requires Since(viewed, c) && Since(source, c) && ReadFrom(claims, source)
    requires Bounded(source) && Elements(source.v1) <= source.origin
    requires SizeWithinPadding(TotalClaimed(claims), viewed.requested, c.paddingBps)
    ensures Encloses(c, all) && Elements(source.v1) <= Elements(all)
  {
    if source.registered == [] && source.Quiet() {
      all := source.v1;
      TotalIsSum(claims, source.sizes);
      SinceQuiet(source, c);
      NarrowerTerms(viewed, c);
    } else {
      all :| Encloses(source, all);
    }
  }

  /** A plan all of whose extensions got registered, and nothing else beside what was, ends with the claimed bytes. */
  lemma AllBytesAdopted(plan: AdoptionPlan, basis: PlanBasis, batches: seq<AdoptionPlan>, registered: seq<nat>,
                        bytes: nat)
    requires MadeFrom(plan, basis) && basis.held.registered <= registered && AllExtensions(batches) == plan.extensions
    requires RegisteredAll(batches, Elements(registered)) && Elements(registered) <= plan.SourceIds()
    requires bytes == BytesOf(plan.sourceClaims, Elements(registered))
    ensures bytes == TotalClaimed(plan.sourceClaims)
  {
    hide SizeWithinPadding, BytesOf, TotalClaimed, BuildAdoptionPlan, ReadFrom;
    PlanPartitions(plan.sourceClaims, basis.held.registered, basis.timed.epoch);
    AllExtensionsRegistered(batches, Elements(registered));
    assert Elements(basis.held.registered) <= Elements(registered);
    BytesOfAll(plan.sourceClaims, Elements(registered));
  }

  lemma SomethingToAdopt(plan: AdoptionPlan, basis: PlanBasis)
    requires MadeFrom(plan, basis) && !plan.Complete()
    ensures plan.extensions != []
  {
    hide SizeWithinPadding, BuildAdoptionPlan, ReadFrom;
    PlanPartitions(plan.sourceClaims, basis.held.registered, basis.timed.epoch);
    assert Elements(ExtensionIds([])) == {};
  }

  lemma PartsOfPlan(plan: AdoptionPlan, basis: PlanBasis, size: nat)
    requires MadeFrom(plan, basis) && !plan.Complete() && size > 0
    ensures plan.Batches(size).Ok? && plan.Batches(size).value != []
    ensures AllExtensions(plan.Batches(size).value) == plan.extensions
  {
    hide MadeFrom;
    BatchesConserve(plan, size);
    SomethingToAdopt(plan, basis);
  }

  lemma CompleteBytes(plan: AdoptionPlan, bytes: nat)
    requires plan.Complete() && bytes == BytesOf(plan.sourceClaims, plan.registeredIds)
    ensures bytes == TotalClaimed(plan.sourceClaims)
  {
    BytesOfAll(plan.sourceClaims, plan.registeredIds);
  }

  ghost predicate Encodable(batches: seq<AdoptionPlan>) {
    forall i :: 0 <= i < |batches| ==> OperatorRows(batches[i].extensions).Ok?
  }

  /** What a run of `finish-migration` went by: the chain when it read the V2 deal, then the adapter's bytes, then the
      padding, and the nonce of the transaction it sent. */
  datatype FinishBasis =
    | NotChecked
    | Checked(viewed: Chain, read: Chain, priced: Chain)
    | SentAfter(viewed: Chain, read: Chain, priced: Chain, nonce: nat)

  /** The reads followed each other; the first of the chain read showed all V1 claims registered, and the bytes were
      within the padding of the requested size. */
  ghost predicate FinishReady(from: Chain, viewed: Chain, read: Chain, priced: Chain) {
    && Since(from, viewed) && Since(viewed, read) && Since(read, priced) && read.Covered()
    && SizeWithinPadding(read.allocatedBytes, viewed.requested, priced.paddingBps)
  }

  /** What a run of `close-v1-deal` went by: the chain when it read the V2 deal, the V1 rail and the epoch, and, for an
      open rail, the V1 deal's claim ids and the registered ids. */
  datatype ClosingBasis = ClosingBasis(viewed: Chain, railed: Chain, timed: Chain, source: Chain, held: Chain)

  datatype Action = NothingToDo | ToTerminate | ToSettle

  /** What is to be done about the V1 rail: nothing once it is settled or while it is still to end, settling once its
      end epoch has passed; an open one is terminated exactly when V2 holds all V1 claims and is ACTIVE and the rail
      pays on for two days at most, or for longer by force. */
  ghost predicate Decided(e: Ending, action: Action, basis: ClosingBasis, force: bool) {
    match basis.railed.rail
    case Finalized(_) => e.Completed? && action == NothingToDo
    case Ended(endEpoch) => e.Completed? && action == if basis.timed.epoch <= endEpoch then NothingToDo else ToSettle
    case Open(lockup) =>
      && (e.Completed? ==> action == ToTerminate)
      && (e.Completed? <==>
            && Elements(basis.source.v1) <= Elements(basis.held.registered) && basis.viewed.deal == Active
            && (lockup <= 2 * 2880 || force))
  }

  /** The reads followed each other. */
  ghost predicate ClosingReads(from: Chain, basis: ClosingBasis) {
    && Since(from, basis.viewed) && Since(basis.viewed, basis.railed) && Since(basis.railed, basis.timed)
    && (basis.railed.rail.Open? ==> Since(basis.timed, basis.source) && Since(basis.source, basis.held))
  }

  ghost predicate ClosingWasRead(basis: ClosingBasis, seen: set<Chain>) {
    && {basis.viewed, basis.railed, basis.timed} <= seen
    && (basis.railed.rail.Open? ==> {basis.source, basis.held} <= seen)
  }

  /** The reason is one: it is shown by chains that the run has read, in the order in which the tool reads them, and by
      what its surroundings reported. */
  ghost predicate Shown(why: Reason, seen: set<Chain>, around: Surroundings) {
    match why
    case StillPending(counted, read) =>
      {counted, read} <= seen && Since(counted, read) && read.Pending() != counted.Latest()
    case NonceTaken(counted, read) =>
      {counted, read} <= seen && Since(counted, read) && counted.Latest() < read.Latest()
    case Reverted(nonce, read) => read in seen && nonce < read.Latest() && !read.log[nonce].ok
    case NoReceipt(nonce, read) => read in seen && read.Latest() <= nonce
    case ClaimsMissing(source, held) =>
      {source, held} <= seen && Since(source, held) && !(Elements(source.v1) <= Elements(held.registered))
    case NotAccepted(viewed) => viewed in seen && viewed.deal != Accepted
    case PostingFinished(read) => read in seen && read.postingFinished
    case RailNotOpen(read) => read in seen && !read.rail.Open?
    case NoSourceClaims(source) => source in seen && (source.v1 == [] || !Distinct(source.v1))
    case ClaimNotReported(source, id) => source in seen && id in source.v1 && id !in around.reported
    case BytesNotRecorded(source) => source in seen && SumSizes(source.sizes, source.v1) != around.recorded
    case SizeOutsidePadding(viewed, source, priced) =>
      && {viewed, source, priced} <= seen && Since(viewed, source) && Since(source, priced)
      && !SizeWithinPadding(SumSizes(source.sizes, source.v1), viewed.requested, priced.paddingBps)
    case PlanRefused(claims, source, held, timed, error) =>
      && {source, held, timed} <= seen && Since(source, held) && Since(held, timed) && ReadFrom(claims, source)
      && BuildAdoptionPlan(claims, held.registered, timed.epoch) == Wrappers.Err(error)
    case BytesDiffer(claims, source, held, read) =>
      && {source, held, read} <= seen && Since(source, held) && Since(held, read) && ReadFrom(claims, source)
      && read.allocatedBytes != BytesOf(claims, Elements(held.registered))
    case NotEncodable(batch) => OperatorRows(batch.extensions).Err?
    case AlreadyRegistered(batch, read) =>
      read in seen && !(Elements(ExtensionIds(batch.extensions)) !! Elements(read.registered))
    case ReadBackDiffers(plan, batch, held, read) =>
      && {held, read} <= seen && Since(held, read)
      && ValidateBatchReceipt(plan, batch, Elements(held.registered), read.allocatedBytes,
                              around.readBack(ExtensionIds(batch.extensions))).Err?
    case BytesOutsidePadding(viewed, read, priced) =>
      && {viewed, read, priced} <= seen && Since(viewed, read) && Since(read, priced)
      && !SizeWithinPadding(read.allocatedBytes, viewed.requested, priced.paddingBps)
    case NotActive(viewed) => viewed in seen && viewed.deal != Active
    case NoticeTooLong(read) => read in seen && read.rail.Open? && read.rail.lockup > 2 * 2880
    case BatchSizeOutOfRange(size) => size == 0 || size > 100
  }

  lemma RegisteredIsShown(batch: AdoptionPlan, read: Chain, seen: set<Chain>, around: Surroundings)
    requires read in seen && Elements(ExtensionIds(batch.extensions)) * Elements(read.registered) != {}
    ensures Shown(AlreadyRegistered(batch, read), seen, around)
  {
  }

  lemma ReadBackIsShown(plan: AdoptionPlan, batch: AdoptionPlan, held: Chain, read: Chain, seen: set<Chain>,
                        around: Surroundings)
    requires {held, read} <= seen && Since(held, read)
    requires ValidateBatchReceipt(plan, batch, Elements(held.registered), read.allocatedBytes,
                                  around.readBack(ExtensionIds(batch.extensions))).Err?
    ensures Shown(ReadBackDiffers(plan, batch, held, read), seen, around)
  {
    hide Since;
  }

  lemma NonceIsShown(counted: Chain, read: Chain, seen: set<Chain>, around: Surroundings)
    requires {counted, read} <= seen && Since(counted, read)
    ensures counted.Latest() < read.Latest() ==> Shown(NonceTaken(counted, read), seen, around)
  {
  }

  lemma SizeIsShown(size: nat, seen: set<Chain>, around: Surroundings)
    requires !(1 <= size <= ADOPTION_BATCH_SIZE)
    ensures Shown(BatchSizeOutOfRange(size), seen, around)
  {
  }

  lemma RailIsShown(railed: Chain, seen: set<Chain>, around: Surroundings)
    requires railed in seen && !railed.rail.Open?
    ensures Shown(RailNotOpen(railed), seen, around)
  {
  }

  lemma SourceIsShown(source: Chain, seen: set<Chain>, around: Surroundings)
    requires source in seen
    ensures source.v1 == [] || !Distinct(source.v1) ==> Shown(NoSourceClaims(source), seen, around)
    ensures forall id :: id in source.v1 && id !in around.reported ==>
              Shown(ClaimNotReported(source, id), seen, around)
    ensures SumSizes(source.sizes, source.v1) != around.recorded ==> Shown(BytesNotRecorded(source), seen, around)
  {
    hide Distinct, SumSizes;
  }

  lemma RefusalIsShown(claims: seq<Claim>, source: Chain, held: Chain, timed: Chain, error: MigrationError,
                       seen: set<Chain>, around: Surroundings)
    requires {source, held, timed} <= seen && Since(source, held) && Since(held, timed) && ReadFrom(claims, source)
    requires BuildAdoptionPlan(claims, held.registered, timed.epoch) == Wrappers.Err(error)
    ensures Shown(PlanRefused(claims, source, held, timed, error), seen, around)
  {
    hide Since, BuildAdoptionPlan, ReadFrom;
  }

  lemma DifferenceIsShown(claims: seq<Claim>, source: Chain, held: Chain, read: Chain, seen: set<Chain>,
                          around: Surroundings)
    requires {source, held, read} <= seen && Since(source, held) && Since(held, read) && ReadFrom(claims, source)
    requires CheckRegisteredBytes(claims, Elements(held.registered), read.allocatedBytes).Err?
    ensures Shown(BytesDiffer(claims, source, held, read), seen, around)
  {
    hide Since, ReadFrom, BytesOf;
  }

  lemma NoticeIsShown(read: Chain, seen: set<Chain>, around: Surroundings)
    requires read in seen && read.rail.Open? && read.rail.lockup > MAX_V1_NOTICE_EPOCHS
    ensures Shown(NoticeTooLong(read), seen, around)
  {
  }

  // ---- what the commands may end with ----

  ghost predicate CallsPass(around: Surroundings, calls: nat) {
    forall i :: 0 <= i < calls ==> around.yes(CallPasses(i))
  }

  lemma SignedOne(around: Surroundings, sent: seq<Tx>, tx: Tx, first: nat)
    requires Signed(around, sent, first)
    ensures around.yes(Signs(tx)) ==> Signed(around, sent + [tx], first)
  {
  }

  lemma NothingToSign(around: Surroundings, sent: seq<Tx>)
    ensures Signed(around, sent, |sent|)
  {
  }

  lemma NothingToCall(around: Surroundings)
    ensures Encodable([]) && CallsPass(around, 0) && BatchTxs([]) == []
  {
  }

  ghost predicate TermsReadBack(batch: AdoptionPlan, around: Surroundings) {
    CheckTerms(batch.extensions, around.readBack(ExtensionIds(batch.extensions))).Ok?
  }

  lemma ReadBackIsAccepted(plan: AdoptionPlan, batch: AdoptionPlan, registered: set<nat>, bytes: nat,
                           around: Surroundings)
    requires ValidateBatchReceipt(plan, batch, registered, bytes, around.readBack(ExtensionIds(batch.extensions))).Ok?
    ensures TermsReadBack(batch, around) && Elements(ExtensionIds(batch.extensions)) <= registered
    ensures registered <= plan.SourceIds() && bytes == BytesOf(plan.sourceClaims, registered)
  {
    hide BytesOf, Elements, CheckTerms;
  }

  /** Every transaction from number `first` on was signed. */
  ghost predicate Signed(around: Surroundings, sent: seq<Tx>, first: nat) {
    forall i :: first <= i < |sent| ==> around.yes(Signs(sent[i]))
  }

  ghost predicate OfBatches(q: Question) {
    (q.Signs? || q.Replaces?) && q.tx.Adopt?
  }

  /** What `adopt-v1-claims` asks; of the last line nothing when printing. */
  ghost predicate AskedToAdopt(q: Question, printOnly: bool) {
    || q in {PairMatches, RailPays, ClientMatches, AdapterMatches, AdapterOperational, ClaimsAreSound}
    || q.CallPasses?
    || (!printOnly && (q in {RailPrepared, Confirms} || OfBatches(q)))
  }

  ghost predicate StopsAdopting(why: Reason, printOnly: bool) {
    || why.RailNotOpen? || why.OfPlanning() || why.NotEncodable?
    || (!printOnly && (why.OfSending() || why.OfBatch() || why.ClaimsMissing?))
  }

  ghost predicate AskedToFinish(q: Question, printOnly: bool) {
    || q in {PairMatches, ClientMatches, AdapterMatches, RailPrepared}
    || (!printOnly && q in {Confirms, Signs(FinishPosting), Replaces(FinishPosting)})
  }

  ghost predicate StopsFinishing(why: Reason, printOnly: bool) {
    || (why.NotAccepted? && why.viewed.deal != Active) || why.ClaimsMissing? || why.BytesOutsidePadding?
    || (!printOnly && why.OfPromptedSending())
  }

  ghost predicate AskedToClose(q: Question, printOnly: bool, force: bool) {
    || q in {PairMatches, ClientMatches, CallPasses(0)}
    || (!printOnly && (q == Confirms || ((q.Signs? || q.Replaces?) && q.tx in {TerminateRail(force), SettleRail})))
  }

  ghost predicate StopsClosing(why: Reason, printOnly: bool, force: bool) {
    || why.ClaimsMissing? || why.NotActive? || (why.NoticeTooLong? && !force)
    || (!printOnly && why.OfPromptedSending())
  }

  /** The ending is one that the command may have. */
  ghost predicate Fits(command: Command, e: Ending) {
    match command
    case Adopting(printOnly, batchSize) =>
      && (e.Refused? ==> AskedToAdopt(e.asked, printOnly))
      && (e.Stopped? ==> e.why == BatchSizeOutOfRange(batchSize) || StopsAdopting(e.why, printOnly))
    case Finishing(printOnly) =>
      && (e.Refused? ==> AskedToFinish(e.asked, printOnly))
      && (e.Stopped? ==> StopsFinishing(e.why, printOnly))
    case Closing(printOnly, force) =>
      && (e.Refused? ==> AskedToClose(e.asked, printOnly, force))
      && (e.Stopped? ==> StopsClosing(e.why, printOnly, force))
  }

  lemma EarlyEndingsFit(printOnly: bool, batchSize: nat)
    ensures forall e: Ending ::
              && (e.Refused? ==> e.asked in {PairMatches, RailPays, ClientMatches, AdapterMatches, AdapterOperational,
                                             ClaimsAreSound})
              && (e.Stopped? ==> e.why.OfPlanning() || e.why.RailNotOpen? || e.why == BatchSizeOutOfRange(batchSize))
              ==> Fits(Adopting(printOnly, batchSize), e)
  {
  }

  /** Counts that were read one after the other show no pending transaction. */
  predicate NonePending(counted: Chain, read: Chain) {
    read.Pending() <= counted.Latest()
  }

  /** No three reads in a row show twice that nothing is pending. */
  ghost predicate NeverTwiceQuiet(trace: seq<Chain>) {
    forall k {:trigger trace[k + 2]} :: 0 <= k && k + 2 < |trace| ==>
      !(NonePending(trace[k], trace[k + 1]) && NonePending(trace[k + 1], trace[k + 2]))
  }

  lemma ShortTrace(trace: seq<Chain>)
    ensures |trace| <= 2 ==> NeverTwiceQuiet(trace)
  {
  }

  lemma AllButLast(trace: seq<Chain>)
    requires NeverTwiceQuiet(trace) && trace != []
    ensures NeverTwiceQuiet(trace[..|trace| - 1])
  {
    var before := trace[..|trace| - 1];
    assert forall k :: 0 <= k < |before| ==> before[k] == trace[k];
  }

  lemma LastNotQuiet(trace: seq<Chain>)
    requires |trace| >= 2 && NeverTwiceQuiet(trace[..|trace| - 1])
    requires !NonePending(trace[|trace| - 2], trace[|trace| - 1])
    ensures NeverTwiceQuiet(trace)
  {
    var before := trace[..|trace| - 1];
    assert forall k :: 0 <= k < |before| ==> before[k] == trace[k];
  }

  lemma OneMoreRead(trace: seq<Chain>, c: Chain)
    requires NeverTwiceQuiet(trace) && |trace| >= 2
    ensures !NonePending(trace[|trace| - 2], trace[|trace| - 1]) || !NonePending(trace[|trace| - 1], c) ==>
              NeverTwiceQuiet(trace + [c])
  {
  }

  class World {
    var now: Chain
    ghost const start: Chain
    ghost var events: seq<Event>

    /** The transactions the tool has broadcast. */
    ghost var sent: seq<Tx>

    /** The surroundings of the current run, the reads before it is killed, and the chains it has read. */
    var around: Surroundings
    var life: nat
    ghost var seen: set<Chain>

    ghost predicate Valid()
      reads this
    {
      Fresh(start) && Legal(start, events) && now == Run(start, events)
      && now.origin == start.origin && sent == Broadcasts(events)
    }

    /** The run ended for a reason: it was out of reads, its surroundings said no, or what it read shows why. */
    ghost predicate Explained(e: Ending)
      reads this
    {
      match e
      case Completed => true
      case Killed => life == 0
      case Refused(asked) => !around.yes(asked)
      case Stopped(why) => Shown(why, seen, around)
    }

    constructor (c: Chain, around: Surroundings)
      requires Fresh(c)
      ensures Valid() && now == c && this.around == around && life == around.lifetime && seen == {}
    {
      now := c;
      start := c;
      events := [];
      sent := [];
      this.around := around;
      life := around.lifetime;
      seen := {};
    }

    /** A new run begins. */
    method Begin(around: Surroundings)
      requires Valid()
      modifies `around, `life, `seen
      ensures Valid() && this.around == around && life == around.lifetime && seen == {}
    {
      this.around := around;
      life := around.lifetime;
      seen := {};
    }

    lemma ValidIsSafe()
      requires Valid()
      ensures Invariant(now) && (now.deal == Active ==> now.wasActive)
      ensures forall i :: 0 <= i < |now.log| && now.log[i].ok && now.log[i].tx.SettleRail? ==> now.rail.Finalized?
    {
      LegalRunsAreSafe(start, events);
    }

    method Take(e: Event)
      requires Valid() && Admissible(now, e)
      modifies `now, `events, `sent
      ensures Valid() && now == Step(old(now), e)
      ensures sent == if e.Submit? then old(sent) + [e.tx] else old(sent)
    {
      Continue(start, events, e);
      OriginStays(now, e);
      hide Fresh, Legal, Run, Admissible, Step;
      now := Step(now, e);
      events := events + [e];
      sent := if e.Submit? then sent + [e.tx] else sent;
      assert events[..|events| - 1] == old(events);
    }

    /** The world moves, then the chain is read.  `from` is any earlier state that the caller still has to relate to. */
    method Observe(ghost from: Chain) returns (e: Ending, c: Chain)
      requires Valid() && Since(from, now)
      modifies `now, `events, `sent, `seen, `life
      ensures Valid() && Since(from, now) && Since(old(now), now) && c == now && sent == old(sent)
      ensures seen == old(seen) + {now} && life == if old(life) > 0 then old(life) - 1 else 0
      ensures e == (if old(life) > 0 then Completed else Killed) && Explained(e)
    {
      hide Since, Legal, Run, Accepts, Step;
      var steps: nat := *;
      SinceSelf(now);
      while steps > 0
        invariant Valid() && Since(from, now) && Since(old(now), now)
        invariant seen == old(seen) && sent == old(sent) && life == old(life)
        decreases steps
      {
        var event: Event := *;
        if WorldMay(now, event) {
          SinceStep(now, event);
          SinceTransitive(from, now, Step(now, event));
          SinceTransitive(old(now), now, Step(now, event));
          Take(event);
        }
        steps := steps - 1;
      }
      c := now;
      seen := seen + {now};
      if life == 0 {
        return Killed, c;
      }
      life := life - 1;
      return Completed, c;
    }

    method EnsureNoPendingTransactions(ghost from: Chain) returns (e: Ending)
      requires Valid() && Since(from, now)
      modifies `now, `events, `sent, `seen, `life
      ensures Valid() && old(seen) <= seen && Since(from, now) && sent == old(sent)
      ensures Explained(e) && !e.Refused? && (e.Stopped? ==> e.why.StillPending?) && old(life) <= life + 2
      ensures e.Completed? ==> now.pool == []
    {
      hide Fresh, Legal, Run, Since;
      var c :- Observe(from);
      var first := c;
      c :- Observe(from);
      EqualCountsMeanQuiet(first, now);
      if c.Pending() != first.Latest() {
        return Stopped(StillPending(first, c));
      }
      return Completed;
    }

    /** The inner loop of the wait: polls until the confirmed count reaches the pending one, and no longer. */
    method AwaitCount(counted: nat, pending: nat, ghost from: Chain, ghost before: seq<Chain>)
      returns (e: Ending, latest: nat, ghost trace: seq<Chain>)
      requires Valid() && Since(from, now) && counted < pending == now.Pending() && NeverTwiceQuiet(before)
      requires |before| >= 2 && !NonePending(before[|before| - 2], before[|before| - 1])
      modifies `now, `events, `sent, `seen, `life
      ensures Valid() && old(seen) <= seen && Since(from, now) && sent == old(sent)
      ensures Explained(e) && !e.Refused? && !e.Stopped?
      ensures before <= trace && |trace| == |before| + old(life) - life + if e.Killed? then 1 else 0
      ensures NeverTwiceQuiet(trace)
      ensures e.Completed? ==> pending <= latest == now.Latest() && trace[|trace| - 1] == now && life < old(life)
    {
      hide Since, Fresh, Legal, Run, Shown, NeverTwiceQuiet;
      trace := before;
      latest := counted;
      ghost var waited := now;
      SinceSelf(now);
      while pending > latest
        invariant Valid() && old(seen) <= seen && Since(from, now) && Since(waited, now) && sent == old(sent)
        invariant before <= trace && |trace| == |before| + old(life) - life && NeverTwiceQuiet(trace)
        invariant if trace == before then latest == counted else trace[|trace| - 1] == now && latest == now.Latest()
        decreases life
      {
        var c;
        ghost var prior := now;
        e, c := Observe(from);
        SinceTransitive(waited, prior, now);
        CountsGrow(waited, now);
        OneMoreRead(trace, c);
        trace := trace + [c];
        :- e;
        latest := c.Latest();
      }
      return Completed, latest, trace;
    }

    /** The nested loops that wait for pending transactions.  They end at the first two counts that show none, and later
        at most one read after that. */
    method GetAddressNonce(ghost from: Chain) returns (e: Ending, nonce: nat, ghost trace: seq<Chain>)
      requires Valid() && Since(from, now)
      modifies `now, `events, `sent, `seen, `life
      ensures Valid() && old(seen) <= seen && Since(from, now) && sent == old(sent)
      ensures Explained(e) && !e.Refused? && !e.Stopped?
      ensures e.Completed? ==> now.pool == [] && nonce == now.Latest() && now in seen
      ensures |trace| == old(life) - life + if e.Killed? then 1 else 0
      ensures |trace| > 2 ==> !NonePending(trace[0], trace[1])
      ensures trace != [] ==> NeverTwiceQuiet(trace[..|trace| - 1])
    {
      hide Since, Fresh, Legal, Run, Shown, NeverTwiceQuiet;
      nonce, trace := 0, [];
      var c;
      e, c := Observe(from);
      trace := [c];
      ShortTrace(trace[..0]);
      :- e;
      var latest := c.Latest();
      ghost var read := now;
      e, c := Observe(from);
      trace := trace + [c];
      ShortTrace(trace[..1]);
      :- e;
      var pending := c.Pending();
      while pending > latest
        invariant Valid() && old(seen) <= seen && Since(from, now) && Since(read, now) && sent == old(sent)
        invariant latest == read.Latest() && pending == now.Pending() && now in seen
        invariant |trace| >= 2 && |trace| == old(life) - life && NeverTwiceQuiet(trace[..|trace| - 1])
        invariant trace[|trace| - 2] == read && trace[|trace| - 1] == now
        invariant |trace| > 2 ==> !NonePending(trace[0], trace[1])
        decreases life
      {
        LastNotQuiet(trace);
        var count;
        ghost var more;
        e, count, more := AwaitCount(latest, pending, from, trace);
        AllButLast(more);
        trace := more;
        :- e;
        latest, read := count, now;
        SinceSelf(now);
        e, c := Observe(from);
        assert (trace + [c])[..|trace|] == trace;
        trace := trace + [c];
        :- e;
        pending := c.Pending();
      }
      WaitEndsQuiet(read, now);
      return Completed, pending, trace;
    }

    /** Broadcasts; `accepted` unless the nonce is taken by a transaction that is not replaced. */
    method Broadcast(nonce: nat, tx: Tx) returns (accepted: bool)
      requires Valid() && MaySend(now, tx) && nonce <= now.Pending()
      modifies `now, `events, `sent
      ensures Valid() && sent == old(sent) + [tx]
      ensures accepted <==>
                nonce == old(now.Pending()) || (old(now.Latest()) <= nonce && around.yes(Replaces(tx)))
      ensures accepted ==> now.Latest() <= nonce < now.Pending() && TxAt(now, nonce) == tx
      ensures now.log == old(now.log) && now.registered == old(now.registered) &&
              now.allocatedBytes == old(now.allocatedBytes)
      ensures old(now.Inert()) && !tx.Adopt? ==> now.Inert()
      ensures StaysEnclosed(old(now), now, tx)
    {
      hide Legal, Run, MaySend, Encloses;
      var bump := around.yes(Replaces(tx));
      accepted := nonce == now.Pending() || (now.Latest() <= nonce && bump);
      forall claims | Encloses(now, claims) && (tx.Adopt? ==> Elements(tx.batch) <= Elements(claims))
        ensures Encloses(Sent(now, nonce, tx, bump), claims)
      {
        SendingKeepsEnclosure(now, nonce, tx, bump, claims);
      }
      Take(Submit(nonce, tx, bump));
    }

    /** The nonce for a transaction is the confirmed count, and not below that of any which was pending at the call. */
    method NextNonce(confirmed: bool) returns (e: Ending, nonce: nat)
      requires Valid()
      modifies `now, `events, `sent, `seen, `life
      ensures Valid() && old(seen) <= seen && Since(old(now), now) && sent == old(sent)
      ensures Explained(e) && !e.Refused? && (e.Stopped? ==> confirmed && e.why.StillPending?)
      ensures confirmed ==> old(life) <= life + 3
      ensures e.Completed? ==> old(now.Pending()) <= nonce == now.Latest() && now in seen
    {
      hide Since, Fresh, Legal, Run, Shown;
      nonce := 0;
      SinceSelf(now);
      if confirmed {
        :- EnsureNoPendingTransactions(now);
        ghost var checked := now;
        var c :- Observe(old(now));
        CountsGrow(old(now), checked);
        CountsGrow(checked, now);
        nonce := c.Latest();
      } else {
        var count, _ :- GetAddressNonce(now);
        nonce := count;
        CountsGrow(old(now), now);
      }
      return Completed, nonce;
    }

    /** Signs, sends and waits for the receipt.  In a confirmed batch there is no prompt, and nothing may be pending;
        otherwise pending transactions are waited for, and the final prompt may be declined.  The transaction comes
        after all that were pending at the call. */
    method SignAndSendTx(tx: Tx, confirmed: bool) returns (e: Ending, nonce: nat)
      requires Valid() && MaySend(now, tx)
      modifies `now, `events, `sent, `seen, `life
      ensures Valid() && old(seen) <= seen && (sent == old(sent) || sent == old(sent) + [tx])
      ensures Explained(e) && (e.Stopped? ==> e.why.OfSending() && (e.why.StillPending? ==> confirmed))
      ensures e.Refused? ==> e.asked in {Signs(tx), Replaces(tx)}
      ensures confirmed ==> old(life) <= life + around.polls + 5
      ensures sent != old(sent) ==> around.yes(Signs(tx))
      ensures e.Completed? ==> old(now.registered) <= now.registered
      ensures e.Completed? ==> sent == old(sent) + [tx]
      ensures e.Completed? ==> nonce < now.Latest() && now.log[nonce].tx == tx && now.log[nonce].ok
      ensures e.Completed? ==> nonce >= old(now.Pending())
      ensures e.Completed? ==> StaysEnclosed(old(now), now, tx)
      ensures e.Completed? && tx.Adopt? ==> now.Quiet()
      ensures e.Completed? && !tx.Adopt? && old(now.Inert()) ==>
                now.log[nonce].view.allocatedBytes == old(now.allocatedBytes)
    {
      hide Since, Fresh, Legal, Run, MaySend, StaysEnclosed, Shown;
      nonce :- NextNonce(confirmed);
      ghost var read := now;
      var counted := now;
      SinceSelf(now);
      var c :- Observe(now);
      SinceTransitive(old(now), read, now);
      CountsGrow(read, now);
      CountsGrow(old(now), now);
      if !around.yes(Signs(tx)) {
        return Refused(Signs(tx)), nonce;
      }
      MaySendLasts(old(now), now, tx);
      BytesOfInert(old(now), now);
      ghost var ready := now;
      var accepted := Broadcast(nonce, tx);
      if !accepted {
        NonceIsShown(counted, c, seen, around);
        return (if nonce < c.Latest() then Stopped(NonceTaken(counted, c)) else Refused(Replaces(tx))), nonce;
      }
      ghost var broadcast := now;
      e, nonce := AwaitReceipt(nonce);
      BytesOfInert(broadcast, now);
      CountsGrow(broadcast, now);
      EnclosedAround(old(now), ready, broadcast, now, tx);
    }

    /** Polls for the receipt until it is there or the time is up. */
    method AwaitReceipt(own: nat) returns (e: Ending, nonce: nat)
      requires Valid() && now.Latest() <= own < now.Pending()
      modifies `now, `events, `sent, `seen, `life
      ensures Valid() && old(seen) <= seen && Since(old(now), now) && sent == old(sent)
      ensures nonce == own && Explained(e) && !e.Refused?
      ensures e.Stopped? ==> (e.why.Reverted? || e.why.NoReceipt?) && e.why.nonce == own
      ensures old(life) <= life + around.polls + 1
      ensures e.Stopped? && e.why.NoReceipt? ==> old(life) == life + around.polls + 1
      ensures e.Completed? ==> nonce < now.Latest() && now.log[nonce].tx == old(TxAt(now, own)) && now.log[nonce].ok
      ensures e.Completed? && old(TxAt(now, own)).Adopt? ==> now.Quiet()
    {
      hide Legal, Run;
      nonce := own;
      ValidIsSafe();
      SinceSelf(now);
      for polls := 0 to around.polls + 1
        invariant Valid() && old(seen) <= seen && Since(old(now), now) && sent == old(sent) && old(life) == life + polls
        invariant polls > 0 ==> now in seen && now.Latest() <= nonce
      {
        var c :- Observe(old(now));
        if nonce < c.Latest() {
          if !c.log[nonce].ok {
            return Stopped(Reverted(nonce, c)), nonce;
          }
          if old(TxAt(now, own)).Adopt? {
            LandedIsQuiet(old(now), now, nonce);
          }
          return Completed, nonce;
        }
      }
      return Stopped(NoReceipt(nonce, now)), nonce;
    }

    /** Compares the V1 deal's claim ids with the registered ones, and stops exactly when any is missing. */
    method RequireAllRegistered() returns (e: Ending, source: Chain, held: Chain)
      requires Valid()
      modifies `now, `events, `sent, `seen, `life
      ensures Valid() && old(seen) <= seen && Since(old(now), now) && sent == old(sent)
      ensures Explained(e) && !e.Refused? && (e.Stopped? ==> e.why == ClaimsMissing(source, held))
      ensures !e.Killed? ==> {source, held} <= seen && Since(old(now), source) && Since(source, held) && held == now
      ensures !e.Killed? ==> (e.Completed? <==> Elements(source.v1) <= Elements(held.registered))
      ensures e.Completed? ==> now.Covered()
    {
      hide Fresh, Legal, Run;
      source, held := now, now;
      SinceSelf(now);
      source :- Observe(now);
      held :- Observe(old(now));
      var missing := Elements(source.v1) - Elements(held.registered);
      if missing != {} {
        return Stopped(ClaimsMissing(source, held)), source, held;
      }
      SubsetByDifference(Elements(source.v1), Elements(held.registered));
      return Completed, source, held;
    }

    // ---- adopt-v1-claims ----

    /** The V2 deal as it was read, when the V1 rail is still open and the pair matches. */
    method LoadPayingPair() returns (e: Ending, viewed: Chain)
      requires Valid()
      modifies `now, `events, `sent, `seen, `life
      ensures Valid() && old(seen) <= seen && sent == old(sent)
      ensures Explained(e) && (e.Stopped? ==> e.why.RailNotOpen?)
      ensures e.Refused? ==> e.asked in {PairMatches, RailPays, ClientMatches}
      ensures e.Completed? ==> viewed in seen && Since(old(now), viewed) && Since(viewed, now)
      ensures e.Completed? ==> PairIsPaying(around) && old(now.rail.Open?)
      ensures e.Completed? ==> (old(now.postingFinished) ==> now.postingFinished)
    {
      hide Fresh, Legal, Run, Since, Shown;
      viewed := now;
      SinceSelf(now);
      viewed :- Observe(now);
      if !around.yes(PairMatches) {
        return Refused(PairMatches), viewed;
      }
      SinceSelf(now);
      var railed :- Observe(viewed);
      SinceTransitive(old(now), viewed, now);
      RailKept(old(now), now);
      if !railed.rail.Open? {
        RailIsShown(railed, seen, around);
        return Stopped(RailNotOpen(railed)), viewed;
      }
      if !around.yes(RailPays) {
        return Refused(RailPays), viewed;
      }
      if !around.yes(ClientMatches) {
        return Refused(ClientMatches), viewed;
      }
      return Completed, viewed;
    }

    /** The V1 deal's claims as the provider's actor reports them. */
    method SourceClaims(ghost from: Chain) returns (e: Ending, claims: seq<Claim>, source: Chain)
      requires Valid() && Since(from, now)
      modifies `now, `events, `sent, `seen, `life
      ensures Valid() && old(seen) <= seen && Since(from, now) && sent == old(sent)
      ensures Explained(e) && (e.Refused? ==> e.asked == ClaimsAreSound)
      ensures e.Stopped? ==> e.why.NoSourceClaims? || e.why.ClaimNotReported? || e.why.BytesNotRecorded?
      ensures e.Completed? ==> Since(from, source) && Since(source, now) && ReadFrom(claims, source)
      ensures e.Completed? ==> Bounded(source) && Elements(source.v1) <= source.origin && source in seen
      ensures e.Completed? ==> SourceIsSound(source, around)
    {
      hide Fresh, Legal, Run, Since, Bounded, Safe, PoolInOrder, Shown, SumSizes;
      claims, source := [], now;
      source :- Observe(from);
      SinceSelf(now);
      SourceIsShown(source, seen, around);
      var ids := source.v1;
      if ids == [] || !Distinct(ids) {
        return Stopped(NoSourceClaims(source)), [], source;
      }
      ValidIsSafe();
      var c :- Observe(from);
      SizesKept(source, now);
      SourceIsShown(source, seen, around);
      for i := 0 to |ids|
        invariant Ids(claims) == ids[..i]
        invariant forall k :: 0 <= k < i ==>
                    claims[k].claimId in source.sizes && claims[k].size == source.sizes[claims[k].claimId]
        invariant forall k :: 0 <= k < i ==> ids[k] in around.reported
      {
        if ids[i] !in around.reported {
          return Stopped(ClaimNotReported(source, ids[i])), [], source;
        }
        assert ids[i] in Elements(source.v1);
        claims := claims + [around.reported[ids[i]].(claimId := ids[i], size := c.sizes[ids[i]])];
      }
      assert ids[..|ids|] == ids;
      if !around.yes(ClaimsAreSound) {
        return Refused(ClaimsAreSound), claims, source;
      }
      TotalIsSum(claims, source.sizes);
      if TotalClaimed(claims) != around.recorded {
        return Stopped(BytesNotRecorded(source)), claims, source;
      }
      return Completed, claims, source;
    }

    /** The claimed bytes are within the padding of the requested size, so that `all` encloses the claims and whatever
        is adopted. */
    method CheckTargetSize(claims: seq<Claim>, viewed: Chain, source: Chain) returns (e: Ending, ghost all: seq<nat>)
      requires Valid() && Since(viewed, source) && Since(source, now) && {viewed, source} <= seen
      requires ReadFrom(claims, source) && Bounded(source) && Elements(source.v1) <= source.origin
      modifies `now, `events, `sent, `seen, `life
      ensures Valid() && seen == old(seen) + {now} && Since(source, now) && Since(old(now), now) && sent == old(sent)
      ensures Explained(e) && !e.Refused? && (e.Stopped? ==> e.why == SizeOutsidePadding(viewed, source, now))
      ensures e.Completed? ==> SizeWithinPadding(TotalClaimed(claims), viewed.requested, now.paddingBps)
      ensures e.Completed? ==> Encloses(now, all) && Elements(source.v1) <= Elements(all)
    {
      hide Fresh, Legal, Run, Since, SizeWithinPadding, Encloses, Bounded, TotalClaimed;
      all := [];
      var c :- Observe(source);
      TotalIsSum(claims, source.sizes);
      if !SizeWithinPadding(TotalClaimed(claims), viewed.requested, c.paddingBps) {
        return Stopped(SizeOutsidePadding(viewed, source, c)), all;
      }
      SinceTransitive(viewed, source, now);
      all := PlanIsEnclosed(viewed, source, now, claims);
      return Completed, all;
    }

    /** The deal is ACCEPTED, and its adapter takes evidence for it. */
    method CheckAdapter(viewed: Chain) returns (e: Ending)
      requires Valid() && Since(viewed, now) && viewed in seen
      modifies `now, `events, `sent, `seen, `life
      ensures Valid() && old(seen) <= seen && Since(viewed, now) && sent == old(sent)
      ensures Explained(e) && (e.Refused? ==> e.asked in {AdapterMatches, AdapterOperational})
      ensures e.Stopped? ==> e.why == NotAccepted(viewed) || e.why.PostingFinished?
      ensures e.Completed? ==> viewed.deal == Accepted && !old(now.postingFinished)
      ensures e.Completed? ==> around.yes(AdapterMatches) && around.yes(AdapterOperational)
    {
      hide Fresh, Legal, Run, Since;
      if viewed.deal != Accepted {
        return Stopped(NotAccepted(viewed));
      }
      if !around.yes(AdapterMatches) {
        return Refused(AdapterMatches);
      }
      var c :- Observe(viewed);
      RailKept(old(now), now);
      if c.postingFinished {
        return Stopped(PostingFinished(c));
      }
      if !around.yes(AdapterOperational) {
        return Refused(AdapterOperational);
      }
      return Completed;
    }

    /** The plan against the chain as it is, with the checks in the order of the tool.  The state and the requested
        size of the V2 deal were `viewed` before; `all` encloses what is adopted and is to be. */
    method PlanAdoption(viewed: Chain)
      returns (e: Ending, plan: AdoptionPlan, ghost basis: PlanBasis, ghost all: seq<nat>)
      requires Valid() && Since(viewed, now) && viewed in seen
      modifies `now, `events, `sent, `seen, `life
      ensures Valid() && old(seen) <= seen && sent == old(sent)
      ensures Explained(e) && (e.Refused? ==> e.asked in {AdapterMatches, AdapterOperational, ClaimsAreSound})
      ensures e.Stopped? ==> e.why.OfPlanning()
      ensures e.Completed? ==> viewed.deal == Accepted && !old(now.postingFinished)
      ensures e.Completed? ==>
                around.yes(AdapterMatches) && around.yes(AdapterOperational) && SourceIsSound(basis.source, around)
      ensures e.Completed? ==> MadeFrom(plan, basis) && basis.viewed == viewed
      ensures e.Completed? ==> basis.held.registered <= now.registered
      ensures e.Completed? ==> ReadInTurn(viewed, basis) && Since(basis.timed, now) && WasRead(basis, seen)
      ensures e.Completed? ==> Encloses(now, all) && DistinctWithin(plan.extensions, Elements(all))
      ensures e.Completed? ==> now.allocatedBytes == BytesOf(plan.sourceClaims, plan.registeredIds)
      ensures e.Completed? && plan.Complete() ==> now.Covered()
    {
      hide Fresh, Legal, Run, Since, BuildAdoptionPlan, SizeWithinPadding, BytesOf, Encloses, Bounded, TotalClaimed,
           ReadFrom, MadeFrom, DistinctWithin, Shown, SourceIsSound;
      plan, basis, all := AdoptionPlan([], {}, []), PlanBasis(viewed, viewed, viewed, viewed, viewed), [];
      :- CheckAdapter(viewed);
      var claims, source :- SourceClaims(viewed);
      all :- CheckTargetSize(claims, viewed, source);
      ghost var checked := now;
      SinceSelf(now);
      var held :- Observe(now);
      SinceTransitive(source, checked, now);
      EnclosuresKept(checked, now);
      SinceSelf(now);
      var timed :- Observe(now);
      EnclosuresKept(held, now);
      SinceSelf(now);
      var built := BuildAdoptionPlan(claims, held.registered, timed.epoch);
      if built.Err? {
        RefusalIsShown(claims, source, held, timed, built.error, seen, around);
        return Stopped(PlanRefused(claims, source, held, timed, built.error)), plan, basis, all;
      }
      plan, basis := built.value, PlanBasis(viewed, source, checked, held, timed);
      PlanIsMade(claims, plan, basis, all);
      SinceSelf(viewed);
      var c :- Observe(held);
      SinceTransitive(source, held, now);
      EnclosuresKept(timed, now);
      CoverKept(source, held, now);
      if CheckRegisteredBytes(claims, plan.registeredIds, c.allocatedBytes).Err? {
        DifferenceIsShown(claims, source, held, c, seen, around);
        return Stopped(BytesDiffer(claims, source, held, c)), plan, basis, all;
      }
      return Completed, plan, basis, all;
    }

    /** Nothing from outside the deal is registered, and the bytes are those of what is. */
    ghost predicate Adopted(plan: AdoptionPlan)
      reads this
    {
      Elements(now.registered) <= plan.SourceIds() &&
        now.allocatedBytes == BytesOf(plan.sourceClaims, Elements(now.registered))
    }

    /** Sends one batch, after checking once more that none of it is registered, and reads back what it did.  It never
        waits for pending transactions, only for its own receipt. */
    method AdoptBatch(plan: AdoptionPlan, batch: AdoptionPlan, ghost all: seq<nat>) returns (e: Ending)
      requires Valid() && now.Quiet() && Encloses(now, all)
      requires DistinctWithin(batch.extensions, Elements(all)) && OperatorRows(batch.extensions).Ok?
      modifies `now, `events, `sent, `seen, `life
      ensures Valid() && old(seen) <= seen &&
              (sent == old(sent) || sent == old(sent) + [Adopt(ExtensionIds(batch.extensions))])
      ensures Explained(e) && (e.Refused? ==> OfBatches(e.asked))
      ensures e.Stopped? ==> e.why.OfSending() || (e.why.OfBatch() && e.why.batch == batch)
      ensures old(life) <= life + around.polls + 8
      ensures sent != old(sent) ==> Elements(ExtensionIds(batch.extensions)) !! old(Elements(now.registered))
      ensures e.Completed? ==> sent == old(sent) + [Adopt(ExtensionIds(batch.extensions))]
      ensures e.Completed? ==> now.Quiet() && Encloses(now, all)
      ensures e.Completed? ==> old(now.registered) <= now.registered
      ensures e.Completed? ==> Elements(ExtensionIds(batch.extensions)) <= Elements(now.registered) && Adopted(plan)
      ensures e.Completed? ==> TermsReadBack(batch, around)
      ensures sent != old(sent) ==> around.yes(Signs(Adopt(ExtensionIds(batch.extensions))))
    {
      hide Fresh, Legal, Run, Since, Encloses, MaySend, BytesOf, Shown, ValidateBatchReceipt, TermsReadBack;
      var ids := ExtensionIds(batch.extensions);
      SinceSelf(now);
      var c :- Observe(now);
      SinceQuiet(old(now), now);
      InertKept(old(now), now);
      if Elements(ids) * Elements(c.registered) != {} {
        RegisteredIsShown(batch, c, seen, around);
        return Stopped(AlreadyRegistered(batch, c));
      }
      DisjointByIntersection(Elements(ids), Elements(c.registered));
      EnclosuresKept(old(now), now);
      SinceSelf(now);
      UnregisteredStaysSo(now, now, ids, all);
      var nonce :- SignAndSendTx(Adopt(ids), true);
      ghost var landed := now;
      SinceSelf(now);
      var held :- Observe(now);
      InertKept(landed, now);
      SinceSelf(now);
      c :- Observe(held);
      SinceTransitive(landed, held, now);
      SinceQuiet(landed, now);
      InertKept(landed, now);
      EnclosuresKept(landed, now);
      if ValidateBatchReceipt(plan, batch, Elements(held.registered), c.allocatedBytes, around.readBack(ids)).Err? {
        ReadBackIsShown(plan, batch, held, c, seen, around);
        return Stopped(ReadBackDiffers(plan, batch, held, c));
      }
      ReadBackIsAccepted(plan, batch, Elements(held.registered), c.allocatedBytes, around);
      return Completed;
    }

    /** Every batch is tried as a call first. */
    method Preflight(batches: seq<AdoptionPlan>) returns (e: Ending)
      ensures Explained(e) && (e.Refused? ==> e.asked.CallPasses? && e.asked.number < |batches|)
      ensures e.Stopped? ==> e.why.NotEncodable? && e.why.batch in batches
      ensures !e.Killed? && (e.Completed? ==> Encodable(batches) && CallsPass(around, |batches|))
    {
      for i := 0 to |batches|
        invariant forall j :: 0 <= j < i ==> OperatorRows(batches[j].extensions).Ok?
        invariant forall j :: 0 <= j < i ==> around.yes(CallPasses(j))
      {
        if OperatorRows(batches[i].extensions).Err? {
          return Stopped(NotEncodable(batches[i]));
        }
        if !around.yes(CallPasses(i)) {
          return Refused(CallPasses(i));
        }
      }
      return Completed;
    }

    method SendBatches(plan: AdoptionPlan, batches: seq<AdoptionPlan>, ghost all: seq<nat>) returns (e: Ending)
      requires Valid() && now.Quiet() && Encloses(now, all)
      requires AllWithin(batches, Elements(all)) && Encodable(batches)
      modifies `now, `events, `sent, `seen, `life
      ensures Valid() && old(seen) <= seen
      ensures Explained(e) && (e.Refused? ==> OfBatches(e.asked))
      ensures e.Stopped? ==> e.why.OfSending() || (e.why.OfBatch() && e.why.batch in batches)
      ensures old(sent) <= sent <= old(sent) + BatchTxs(batches) && Signed(around, sent, |old(sent)|)
      ensures e.Completed? ==> sent == old(sent) + BatchTxs(batches)
      ensures e.Completed? ==> now.Quiet() && old(now.registered) <= now.registered
      ensures e.Completed? ==> RegisteredAll(batches, Elements(now.registered)) && (batches != [] ==> Adopted(plan))
    {
      hide Fresh, Legal, Run, Adopted, BatchTxs, RegisteredAll, Elements, DistinctWithin, Encloses, Shown, Signed;
      NoBatches(batches, Elements(now.registered));
      NothingToSign(around, sent);
      for i := 0 to |batches|
        invariant Valid() && old(seen) <= seen && now.Quiet() && Encloses(now, all) &&
                  sent == old(sent) + BatchTxs(batches[..i])
        invariant old(now.registered) <= now.registered && (i > 0 ==> Adopted(plan))
        invariant Signed(around, sent, |old(sent)|)
        invariant RegisteredAll(batches[..i], Elements(now.registered)) && BatchTxs(batches[..i]) <= BatchTxs(batches)
      {
        ghost var before := now.registered;
        OneMoreBatch(batches, i);
        SignedOne(around, sent, Adopt(ExtensionIds(batches[i].extensions)), |old(sent)|);
        :- AdoptBatch(plan, batches[i], all);
        OneMoreRegistered(batches, i, before, now.registered);
      }
      assert batches[..|batches|] == batches;
      return Completed;
    }

    /** With nothing in flight, sends the batches of a plan, and makes sure that nothing is left. */
    method SendPlan(plan: AdoptionPlan, ghost basis: PlanBasis, ghost all: seq<nat>, batches: seq<AdoptionPlan>)
      returns (e: Ending)
      requires Valid() && MadeFrom(plan, basis) && !plan.Complete() && basis.held.registered <= now.registered
      requires AllExtensions(batches) == plan.extensions && Encodable(batches)
      requires Encloses(now, all) && DistinctWithin(plan.extensions, Elements(all))
      modifies `now, `events, `sent, `seen, `life
      ensures Valid() && old(seen) <= seen
      ensures Explained(e) && (e.Refused? ==> OfBatches(e.asked))
      ensures e.Stopped? ==>
                e.why.OfSending() || e.why.ClaimsMissing? || (e.why.OfBatch() && e.why.batch in batches)
      ensures old(sent) <= sent <= old(sent) + BatchTxs(batches) && Signed(around, sent, |old(sent)|)
      ensures e.Completed? ==> sent == old(sent) + BatchTxs(batches) && now.Covered()
      ensures e.Completed? ==> now.allocatedBytes == TotalClaimed(plan.sourceClaims)
    {
      hide Fresh, Legal, Run, Since, MadeFrom, Encodable, BytesOf, TotalClaimed, RegisteredAll, DistinctWithin,
           Encloses, Shown;
      SinceSelf(now);
      :- EnsureNoPendingTransactions(now);
      CountsGrow(old(now), now);
      EnclosuresKept(old(now), now);
      PlanWithin(batches, Elements(all));
      SomethingToAdopt(plan, basis);
      :- SendBatches(plan, batches, all);
      AllBytesAdopted(plan, basis, batches, now.registered, now.allocatedBytes);
      ghost var adopted := now;
      var _, _ :- RequireAllRegistered();
      BytesOfInert(adopted, now);
      return Completed;
    }

    /** Previews and sends a plan, unless there is nothing left to adopt. */
    method CarryOutPlan(plan: AdoptionPlan, ghost basis: PlanBasis, ghost all: seq<nat>, printOnly: bool,
                        batchSize: nat)
      returns (e: Ending, ghost batches: seq<AdoptionPlan>)
      requires Valid() && MadeFrom(plan, basis) && basis.held.registered <= now.registered && batchSize > 0
      requires Encloses(now, all) && DistinctWithin(plan.extensions, Elements(all))
      requires now.allocatedBytes == BytesOf(plan.sourceClaims, plan.registeredIds)
      requires plan.Complete() ==> now.Covered()
      modifies `now, `events, `sent, `seen, `life
      ensures Valid() && old(seen) <= seen
      ensures batches != [] ==> plan.Batches(batchSize) == Wrappers.Ok(batches) && around.yes(RailPrepared)
      ensures e.Completed? ==> (batches == [] <==> plan.Complete() || !around.yes(RailPrepared))
      ensures e.Completed? || sent != old(sent) ==> Encodable(batches) && CallsPass(around, |batches|)
      ensures sent != old(sent) ==> around.yes(Confirms) && Signed(around, sent, |old(sent)|)
      ensures Explained(e) && Fits(Adopting(printOnly, batchSize), e)
      ensures e.Refused? && e.asked.CallPasses? ==> e.asked.number < |batches|
      ensures e.Stopped? && e.why.OfBatch() ==> e.why.batch in batches
      ensures old(sent) <= sent <= old(sent) + BatchTxs(batches) && (printOnly ==> sent == old(sent))
      ensures e.Completed? && !printOnly ==> sent == old(sent) + BatchTxs(batches) && now.Covered()
      ensures e.Completed? && !printOnly ==> now.allocatedBytes == TotalClaimed(plan.sourceClaims)
    {
      hide Fresh, Legal, Run, Since, DistinctWithin, MadeFrom, Encodable, BytesOf, TotalClaimed, AllExtensions,
           Encloses, Signed, CallsPass, Shown, BatchTxs, AdoptionPlan.Batches, AdoptionPlan.Complete;
      batches := [];
      NothingToCall(around);
      if plan.Complete() {
        CompleteBytes(plan, now.allocatedBytes);
        return Completed, batches;
      }
      if !around.yes(RailPrepared) {
        return (if printOnly then Completed else Refused(RailPrepared)), batches;
      }
      PartsOfPlan(plan, basis, batchSize);
      var parts := plan.Batches(batchSize).value;
      batches := parts;
      :- Preflight(parts);
      if printOnly {
        return Completed, batches;
      }
      if !around.yes(Confirms) {
        return Refused(Confirms), batches;
      }
      :- SendPlan(plan, basis, all, parts);
      return Completed, batches;
    }

    /** A run sends the batches of its plan in order, and stops at the first that does not land as it should; one that
        ends normally has sent all of them and leaves every claim of the V1 deal registered, with the adapter's bytes
        those of the claims that the plan was made from, whose size was accepted for the V2 deal. */
    method AdoptV1Claims(printOnly: bool, batchSize: nat)
      returns (e: Ending, ghost plan: AdoptionPlan, ghost basis: PlanBasis, ghost batches: seq<AdoptionPlan>)
      requires Valid() && seen == {}
      modifies `now, `events, `sent, `seen, `life
      ensures Valid()
      ensures batches != [] ==> plan.Batches(batchSize) == Wrappers.Ok(batches) && around.yes(RailPrepared)
      ensures e.Completed? ==> 1 <= batchSize <= 100
      ensures batches != [] || e.Completed? ==>
                && MadeFrom(plan, basis) && ReadInTurn(old(now), basis) && WasRead(basis, seen)
                && PairIsPaying(around) && around.yes(AdapterMatches) && around.yes(AdapterOperational)
                && SourceIsSound(basis.source, around)
      ensures e.Completed? ==> (batches == [] <==> plan.Complete() || !around.yes(RailPrepared))
      ensures e.Completed? || sent != old(sent) ==> Encodable(batches) && CallsPass(around, |batches|)
      ensures sent != old(sent) ==> around.yes(Confirms) && Signed(around, sent, |old(sent)|)
      ensures Explained(e) && Fits(Adopting(printOnly, batchSize), e)
      ensures e.Stopped? && e.why.OfBatch() ==> e.why.batch in batches
      ensures e.Refused? && e.asked.CallPasses? ==> e.asked.number < |batches|
      ensures old(sent) <= sent <= old(sent) + BatchTxs(batches)
      ensures printOnly || old(now.postingFinished || !now.rail.Open?) ==> sent == old(sent)
      ensures e.Completed? && !printOnly ==> sent == old(sent) + BatchTxs(batches)
      ensures e.Completed? && !printOnly ==> now.Covered()
      ensures e.Completed? && !printOnly ==> now.allocatedBytes == TotalClaimed(plan.sourceClaims)
    {
      hide Fresh, Legal, Run, Since, DistinctWithin, MadeFrom, Encodable, BytesOf, TotalClaimed, AllExtensions,
           Encloses, SourceIsSound, PairIsPaying, Signed, CallsPass, Shown, Elements, Fits, ReadInTurn, WasRead;
      EarlyEndingsFit(printOnly, batchSize);
      plan, basis, batches := AdoptionPlan([], {}, []), PlanBasis(now, now, now, now, now), [];
      if !(1 <= batchSize <= ADOPTION_BATCH_SIZE) {
        SizeIsShown(batchSize, seen, around);
        return Stopped(BatchSizeOutOfRange(batchSize)), plan, basis, batches;
      }
      var viewed :- LoadPayingPair();
      var made, from, all :- PlanAdoption(viewed);
      plan, basis := made, from;
      ReadInTurnFrom(old(now), from);
      ghost var planSeen := seen;
      e, batches := CarryOutPlan(made, from, all, printOnly, batchSize);
      StillRead(from, planSeen, seen);
    }

    // ---- finish-migration ----

    /** Every V1 claim is registered, and the adapter's bytes are within the padding of the requested size. */
    method FinishChecks(viewed: Chain) returns (e: Ending, ghost read: Chain, ghost priced: Chain)
      requires Valid() && Since(viewed, now) && viewed in seen
      modifies `now, `events, `sent, `seen, `life
      ensures Valid() && old(seen) <= seen && sent == old(sent)
      ensures Explained(e) && !e.Refused?
      ensures e.Stopped? ==> e.why.ClaimsMissing? || (e.why.BytesOutsidePadding? && e.why.viewed == viewed)
      ensures e.Completed? ==> FinishReady(viewed, viewed, read, priced) && priced == now && MaySend(now, FinishPosting)
      ensures e.Completed? ==> {read, priced} <= seen
    {
      hide Fresh, Legal, Run, SizeWithinPadding, Since, Encloses, MaySend;
      read, priced := viewed, viewed;
      var _, covered :- RequireAllRegistered();
      SinceTransitive(viewed, old(now), now);
      SinceSelf(now);
      var c :- Observe(viewed);
      read := c;
      SinceSelf(now);
      var d :- Observe(now);
      priced := d;
      if !SizeWithinPadding(c.allocatedBytes, viewed.requested, d.paddingBps) {
        return Stopped(BytesOutsidePadding(viewed, c, d)), read, priced;
      }
      SinceSelf(viewed);
      SinceTransitive(viewed, read, now);
      MayFinish(viewed, covered, read, now, viewed.requested, d.paddingBps);
      return Completed, read, priced;
    }

    /** Whether there is nothing left to do: the deal is ACTIVE, or its posting is finished.  If there is, the deal is
        ACCEPTED and its rail is prepared. */
    method FinishIsDue() returns (e: Ending, done: bool, viewed: Chain)
      requires Valid() && seen == {}
      modifies `now, `events, `sent, `seen, `life
      ensures Valid() && sent == old(sent)
      ensures Explained(e) && (e.Refused? ==> e.asked in {PairMatches, ClientMatches, AdapterMatches, RailPrepared})
      ensures e.Stopped? ==> e.why == NotAccepted(viewed) && viewed.deal != Active
      ensures e.Completed? ==> viewed in seen && Since(old(now), viewed) && Since(viewed, now)
      ensures e.Completed? && done ==> viewed.deal == Active || (viewed.deal == Accepted && now.postingFinished)
      ensures e.Completed? && done ==> now.postingFinished || now.wasActive
      ensures e.Completed? ==> PairIsOwn(around)
      ensures e.Completed? && !done ==> around.yes(AdapterMatches) && around.yes(RailPrepared)
      ensures e.Completed? && !done ==> viewed.deal == Accepted && !old(now.postingFinished)
    {
      hide Fresh, Legal, Run, Since;
      viewed, done := now, false;
      SinceSelf(now);
      viewed :- Observe(now);
      SinceSelf(now);
      if !around.yes(PairMatches) {
        return Refused(PairMatches), done, viewed;
      }
      if !around.yes(ClientMatches) {
        return Refused(ClientMatches), done, viewed;
      }
      ValidIsSafe();
      if viewed.deal == Active {
        return Completed, true, viewed;
      }
      if viewed.deal != Accepted {
        return Stopped(NotAccepted(viewed)), done, viewed;
      }
      if !around.yes(AdapterMatches) {
        return Refused(AdapterMatches), done, viewed;
      }
      RailKept(old(now), now);
      var c :- Observe(viewed);
      RailKept(viewed, now);
      if c.postingFinished {
        return Completed, true, viewed;
      }
      if !around.yes(RailPrepared) {
        return Refused(RailPrepared), done, viewed;
      }
      return Completed, done, viewed;
    }

    /** A run that ends normally leaves posting finished, or found the deal ACTIVE.  When it sent, the bytes it read
        were within the padding.  So were those at the landing, for the terms then, unless the terms have been revised;
        and unless an adoption was in flight at that read, they were the very bytes that it read. */
    method FinishMigration(printOnly: bool) returns (e: Ending, ghost basis: FinishBasis)
      requires Valid() && seen == {}
      modifies `now, `events, `sent, `seen, `life
      ensures Valid()
      ensures Explained(e) && Fits(Finishing(printOnly), e)
      ensures sent == old(sent) || sent == old(sent) + [FinishPosting]
      ensures printOnly || old(now.postingFinished) ==> sent == old(sent)
      ensures e.Completed? && !printOnly ==> now.postingFinished || now.wasActive
      ensures basis.SentAfter? ==> e.Completed? && basis.nonce < now.Latest()
      ensures e.Completed? && sent != old(sent) ==> basis.SentAfter?
      ensures e.Completed? ==> PairIsOwn(around)
      ensures e.Completed? && basis.NotChecked? ==> now.postingFinished || now.wasActive
      ensures !basis.NotChecked? ==>
                && {basis.viewed, basis.read, basis.priced} <= seen
                && FinishReady(old(now), basis.viewed, basis.read, basis.priced)
                && around.yes(AdapterMatches) && around.yes(RailPrepared)
      ensures sent != old(sent) ==>
                && PairIsOwn(around) && around.yes(Confirms) && around.yes(Signs(FinishPosting))
                && !basis.NotChecked?
      ensures basis.SentAfter? ==> FinishLanded(now.log[basis.nonce], basis.read)
    {
      hide Fresh, Legal, Run, Since, MaySend, FinishLanded, Invariant, Shown;
      basis := NotChecked;
      var done, viewed :- FinishIsDue();
      if done {
        return Completed, basis;
      }
      var read, priced :- FinishChecks(viewed);
      BytesOfInert(read, now);
      basis := Checked(viewed, read, priced);
      if printOnly {
        return Completed, basis;
      }
      if !around.yes(Confirms) {
        return Refused(Confirms), basis;
      }
      var nonce :- SignAndSendTx(FinishPosting, false);
      ValidIsSafe();
      FinishFound(now, nonce, read);
      basis := SentAfter(viewed, read, priced, nonce);
      return Completed, basis;
    }

    // ---- close-v1-deal ----

    /** Polls for the epoch, and no longer than it takes. */
    method WaitPastEpoch(epoch: nat) returns (e: Ending)
      requires Valid()
      modifies `now, `events, `sent, `seen, `life
      ensures Valid() && old(seen) <= seen && Since(old(now), now) && sent == old(sent)
      ensures Explained(e) && !e.Refused? && !e.Stopped?
      ensures e.Completed? ==> now.epoch > epoch
      ensures forall c :: c in seen && c !in old(seen) ==> c == now || c.epoch <= epoch
    {
      hide Fresh, Legal, Run, Since, Shown;
      SinceSelf(now);
      var c :- Observe(now);
      while c.epoch <= epoch
        invariant Valid() && old(seen) <= seen && Since(old(now), now) && c == now && sent == old(sent)
        invariant forall d :: d in seen && d !in old(seen) ==> d == now || d.epoch <= epoch
        decreases life
      {
        c :- Observe(old(now));
      }
      return Completed;
    }

    /** V1 may be closed exactly when V2 holds its claims and is ACTIVE. */
    method RequireV2ReplacesV1(viewed: Chain) returns (e: Ending, ghost source: Chain, ghost held: Chain)
      requires Valid() && viewed in seen && (viewed.deal == Active ==> now.wasActive)
      modifies `now, `events, `sent, `seen, `life
      ensures Valid() && old(seen) <= seen && Since(old(now), now) && sent == old(sent)
      ensures Explained(e) && !e.Refused? && (e.Stopped? ==> e.why in {ClaimsMissing(source, held), NotActive(viewed)})
      ensures !e.Killed? ==> {source, held} <= seen && Since(old(now), source) && Since(source, held)
      ensures !e.Killed? ==>
                (e.Completed? <==> Elements(source.v1) <= Elements(held.registered) && viewed.deal == Active)
      ensures e.Completed? ==> now.Covered() && now.wasActive
    {
      hide Fresh, Legal, Run;
      e, source, held := RequireAllRegistered();
      :- e;
      if viewed.deal != Active {
        return Stopped(NotActive(viewed)), source, held;
      }
      return Completed, source, held;
    }

    /** Terminates the rail, and waits for its end epoch when that is near; `settle` says that it has passed. */
    method Terminate(force: bool) returns (e: Ending, settle: bool, ghost railed: Chain, ghost timed: Chain)
      requires Valid() && MaySend(now, TerminateRail(force))
      modifies `now, `events, `sent, `seen, `life
      ensures Valid() && old(seen) <= seen && (sent == old(sent) || sent == old(sent) + [TerminateRail(force)])
      ensures Explained(e) && (e.Stopped? ==> e.why.OfPromptedSending())
      ensures e.Refused? ==> e.asked in {Signs(TerminateRail(force)), Replaces(TerminateRail(force))}
      ensures e.Completed? ==> sent == old(sent) + [TerminateRail(force)]
      ensures sent != old(sent) ==> around.yes(Signs(TerminateRail(force)))
      ensures e.Completed? ==> railed in seen && (railed.rail.Ended? ==> timed in seen && Since(railed, timed))
      ensures e.Completed? ==> (settle <==> railed.rail.Ended? && railed.rail.endEpoch <= timed.epoch + 10)
      ensures e.Completed? && settle ==> MaySend(now, SettleRail)
      ensures e.Completed? && !settle ==> now.rail.Finalized? || (now.rail.Ended? && now.epoch + 10 < now.rail.endEpoch)
    {
      hide Fresh, Legal, Run, Since, MaySend, Encloses, Bounded, Shown;
      settle, railed, timed := false, now, now;
      var nonce :- SignAndSendTx(TerminateRail(force), false);
      TerminatedIsNotOpen(now, nonce) by {
        ValidIsSafe();
      }
      SinceSelf(now);
      ghost var landed := now;
      var c :- Observe(now);
      railed := now;
      RailKept(landed, now);
      var rail := c.rail;
      if !rail.Ended? {
        return Completed, false, railed, timed;
      }
      SinceSelf(now);
      c :- Observe(now);
      RailKept(railed, now);
      timed := now;
      if rail.endEpoch > c.epoch + SAME_RUN_SETTLEMENT_EPOCHS {
        return Completed, false, railed, timed;
      }
      :- WaitPastEpoch(rail.endEpoch);
      SinceTransitive(railed, timed, now);
      MaySettle(railed, now);
      return Completed, true, railed, timed;
    }

    /** An open rail may be terminated exactly when V2 replaces V1 and the notice is short enough or forced. */
    method RequireTermination(viewed: Chain, railed: Chain, force: bool)
      returns (e: Ending, ghost source: Chain, ghost held: Chain)
      requires Valid() && {viewed, railed} <= seen && (viewed.deal == Active ==> now.wasActive)
      requires Since(railed, now) && railed.rail.Open?
      modifies `now, `events, `sent, `seen, `life
      ensures Valid() && old(seen) <= seen && sent == old(sent)
      ensures Explained(e) && !e.Refused?
      ensures e.Stopped? ==> e.why.ClaimsMissing? || e.why.NotActive? || (e.why.NoticeTooLong? && !force)
      ensures !e.Killed? ==> {source, held} <= seen && Since(old(now), source) && Since(source, held)
      ensures !e.Killed? ==>
                (e.Completed? <==>
                   && Elements(source.v1) <= Elements(held.registered) && viewed.deal == Active
                   && (railed.rail.lockup <= 2 * 2880 || force))
      ensures e.Completed? ==> MaySend(now, TerminateRail(force))
    {
      hide Fresh, Legal, Run, Since, MaySend, Shown, Elements;
      ghost var before := now;
      e, source, held := RequireV2ReplacesV1(viewed);
      :- e;
      SinceTransitive(railed, before, now);
      if railed.rail.lockup > MAX_V1_NOTICE_EPOCHS && !force {
        NoticeIsShown(railed, seen, around);
        return Stopped(NoticeTooLong(railed)), source, held;
      }
      MayTerminate(railed, now, force);
      return Completed, source, held;
    }

    /** What there is to do about the V1 rail, and that it may be done. */
    method ClosingAction(force: bool) returns (e: Ending, action: Action, ghost basis: ClosingBasis)
      requires Valid() && seen == {}
      modifies `now, `events, `sent, `seen, `life
      ensures Valid() && sent == old(sent)
      ensures Explained(e) && (e.Refused? ==> e.asked in {PairMatches, ClientMatches})
      ensures e.Stopped? ==> e.why.ClaimsMissing? || e.why.NotActive? || (e.why.NoticeTooLong? && !force)
      ensures e.Completed? || e.Stopped? ==> PairIsOwn(around) && Decided(e, action, basis, force)
      ensures e.Completed? || e.Stopped? ==> ClosingReads(old(now), basis) && ClosingWasRead(basis, seen)
      ensures e.Completed? && action == ToTerminate ==> MaySend(now, TerminateRail(force))
      ensures e.Completed? && action == ToSettle ==> MaySend(now, SettleRail)
      ensures e.Completed? && action == NothingToDo ==>
                now.rail.Finalized? || (now.rail.Ended? && now.epoch <= now.rail.endEpoch)
      ensures e.Completed? && old(!now.rail.Open?) ==> action != ToTerminate
      ensures e.Completed? && old(now.rail.Finalized?) ==> action == NothingToDo
      ensures e.Completed? && action == NothingToDo && old(now.rail.Ended? && now.rail.endEpoch < now.epoch) ==>
                now.rail.Finalized?
    {
      hide Fresh, Legal, Run, Since, MaySend, Invariant, Shown;
      action, basis := NothingToDo, ClosingBasis(now, now, now, now, now);
      SinceSelf(now);
      var viewed :- Observe(now);
      ValidIsSafe();
      if !around.yes(PairMatches) {
        return Refused(PairMatches), action, basis;
      }
      SinceSelf(now);
      var railed :- Observe(viewed);
      SinceTransitive(old(now), viewed, now);
      if !around.yes(ClientMatches) {
        return Refused(ClientMatches), action, basis;
      }
      RailKept(old(now), now);
      RailKept(viewed, now);
      SinceSelf(now);
      var timed :- Observe(now);
      RailKept(railed, now);
      basis := ClosingBasis(viewed, railed, timed, timed, timed);
      if railed.rail.Finalized? {
        return Completed, NothingToDo, basis;
      }
      if railed.rail.Open? {
        ghost var source, held;
        e, source, held := RequireTermination(viewed, railed, force);
        return e, ToTerminate, ClosingBasis(viewed, railed, timed, source, held);
      }
      if timed.epoch <= railed.rail.endEpoch {
        return Completed, NothingToDo, basis;
      }
      MaySettle(railed, now);
      return Completed, ToSettle, basis;
    }

    /** Sends what was decided, and settles in the same run after a termination whose end epoch is near. */
    method CarryOut(action: Action, force: bool) returns (e: Ending)
      requires Valid() && action != NothingToDo
      requires MaySend(now, if action == ToTerminate then TerminateRail(force) else SettleRail)
      modifies `now, `events, `sent, `seen, `life
      ensures Valid() && old(seen) <= seen
      ensures Explained(e) && (e.Stopped? ==> e.why.OfPromptedSending())
      ensures e.Refused? ==> (e.asked.Signs? || e.asked.Replaces?) && e.asked.tx in {TerminateRail(force), SettleRail}
      ensures sent == old(sent) || (action == ToSettle && sent == old(sent) + [SettleRail])
              || (action == ToTerminate && sent == old(sent) + [TerminateRail(force)])
              || (action == ToTerminate && sent == old(sent) + [TerminateRail(force), SettleRail])
      ensures Signed(around, sent, |old(sent)|) && (e.Completed? ==> sent != old(sent))
      ensures e.Completed? && action == ToSettle ==> now.rail.Finalized?
      ensures e.Completed? ==> now.rail.Finalized? || (now.rail.Ended? && now.epoch <= now.rail.endEpoch)
    {
      hide Fresh, Legal, Run, Since, MaySend, Invariant, Shown, Signed;
      NothingToSign(around, sent);
      SignedOne(around, sent, TerminateRail(force), |sent|);
      if action == ToTerminate {
        var settle, _, _ :- Terminate(force);
        if !settle {
          return Completed;
        }
      }
      SignedOne(around, sent, SettleRail, |old(sent)|);
      var _ :- SignAndSendTx(SettleRail, false);
      ValidIsSafe();
      return Completed;
    }

    /** A run that ends normally did what was decided, and leaves the V1 rail settled, or terminated with its end epoch
        still to come; so a run that starts after the end epoch leaves it settled. */
    method CloseV1Deal(printOnly: bool, force: bool) returns (e: Ending, action: Action, ghost basis: ClosingBasis)
      requires Valid() && seen == {}
      modifies `now, `events, `sent, `seen, `life
      ensures Valid()
      ensures Explained(e) && Fits(Closing(printOnly, force), e)
      ensures e.Completed? || (e.Stopped? && !e.why.OfSending()) ==>
                Decided(e, action, basis, force) && ClosingReads(old(now), basis) && ClosingWasRead(basis, seen)
      ensures e.Completed? && !printOnly ==>
                match action
                case NothingToDo => sent == old(sent)
                case ToSettle => sent == old(sent) + [SettleRail]
                case ToTerminate =>
                  || sent == old(sent) + [TerminateRail(force)]
                  || sent == old(sent) + [TerminateRail(force), SettleRail]
      ensures e.Completed? || sent != old(sent) ==> PairIsOwn(around)
      ensures (e.Completed? && action != NothingToDo) || sent != old(sent) ==> around.yes(CallPasses(0))
      ensures sent != old(sent) ==> around.yes(Confirms) && Signed(around, sent, |old(sent)|)
      ensures printOnly || old(now.rail.Finalized?) ==> sent == old(sent)
      ensures old(!now.rail.Open?) ==> sent == old(sent) || sent == old(sent) + [SettleRail]
      ensures old(sent) <= sent <= old(sent) + [TerminateRail(force), SettleRail] || sent == old(sent) + [SettleRail]
      ensures e.Completed? && !printOnly ==> now.rail.Finalized? || (now.rail.Ended? && now.epoch <= now.rail.endEpoch)
      ensures e.Completed? && !printOnly && old(now.rail.Ended? && now.rail.endEpoch < now.epoch) ==>
                now.rail.Finalized?
    {
      hide Fresh, Legal, Run, Since, MaySend, Invariant, Shown, Decided, ClosingReads, Signed;
      NothingToSign(around, sent);
      action, basis :- ClosingAction(force);
      if action == NothingToDo {
        return Completed, action, basis;
      }
      if !around.yes(CallPasses(0)) {
        return Refused(CallPasses(0)), action, basis;
      }
      if printOnly {
        return Completed, action, basis;
      }
      if !around.yes(Confirms) {
        return Refused(Confirms), action, basis;
      }
      :- CarryOut(action, force);
      return Completed, action, basis;
    }

    /** One run of a command, in its own surroundings. */
    method RunCommand(run: CommandRun) returns (e: Ending)
      requires Valid()
      modifies this
      ensures Valid() && around == run.around && Explained(e) && Fits(run.command, e)
      ensures run.command.printOnly ==> sent == old(sent)
    {
      hide Fresh, Legal, Run, Shown, Fits;
      Begin(run.around);
      match run.command
      case Adopting(printOnly, batchSize) =>
        var ending, _, _, _ := AdoptV1Claims(printOnly, batchSize);
        return ending;
      case Finishing(printOnly) =>
        var ending, _ := FinishMigration(printOnly);
        return ending;
      case Closing(printOnly, force) =>
        var ending, _, _ := CloseV1Deal(printOnly, force);
        return ending;
    }

    /** Any sequence of runs, each with surroundings of its own and however it ends, keeps the migration safe. */
    method RunCommands(runs: seq<CommandRun>) returns (endings: seq<Ending>)
      requires Valid()
      modifies this
      ensures Valid() && Invariant(now)
      ensures |endings| == |runs| && forall i :: 0 <= i < |runs| ==> Fits(runs[i].command, endings[i])
    {
      hide Fresh, Legal, Run, Fits;
      endings := [];
      for i := 0 to |runs|
        invariant Valid() && |endings| == i && forall j :: 0 <= j < i ==> Fits(runs[j].command, endings[j])
      {
        var e := RunCommand(runs[i]);
        endings := endings + [e];
      }
      ValidIsSafe();
    }
  }
}
