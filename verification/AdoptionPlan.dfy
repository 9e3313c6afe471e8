/** The plan of an adoption: the V1 claims still to be registered, with their extended terms, in batches. */
module AdoptionPlan {
  import opened Wrappers
  import opened Positional
  import opened Lists

  const EPOCHS_IN_DAY: nat := 2880
  const MAXIMUM_VERIFIED_ALLOCATION_TERM: nat := 5 * 365 * EPOCHS_IN_DAY
  const CLAIM_TERM_RESERVE_EPOCHS: nat := EPOCHS_IN_DAY
  const DATACAP_PRECISION: nat := 1_000_000_000_000_000_000
  const MAX_UINT64: nat := 0xFFFF_FFFF_FFFF_FFFF
  const MAX_BPS: nat := 10_000

  datatype Claim = Claim(claimId: nat, provider: nat, size: nat, termStart: nat, termMax: nat, sector: nat) {
    function EndEpoch(): nat {
      termStart + termMax
    }
  }

  datatype ClaimExtension = ClaimExtension(provider: nat, claimId: nat, newTermMax: nat, size: nat)

  datatype MigrationError =
    | SourceEmptyOrDuplicated
    | RegisteredDuplicated
    | ForeignClaims(ids: set<nat>)
    | ClaimExpired(claimId: nat, endEpoch: nat)
    | NothingLeftToExtend(claimId: nat)
    | OutsideUint64
    | NotRegistered(ids: set<nat>)
    | OutsideDeal(ids: set<nat>)
    | BytesMismatch(actual: nat, expected: nat)
    | ClaimDisappeared(claimId: nat)
    | NotExtended(claimId: nat)
    | BatchSizeNotPositive

  datatype AdoptionPlan = AdoptionPlan(sourceClaims: seq<Claim>, registeredIds: set<nat>,
                                       extensions: seq<ClaimExtension>)
  {
    function SourceIds(): set<nat> {
      Elements(Ids(sourceClaims))
    }

    predicate Complete() {
      extensions == [] && registeredIds == SourceIds()
    }

    function DatacapAmount(): nat {
      TotalSize(extensions) * DATACAP_PRECISION
    }

    function Batches(size: int): Result<seq<AdoptionPlan>, MigrationError> {
      if size <= 0 then Err(BatchSizeNotPositive) else Ok(BatchesFrom(size, 0))
    }

    function BatchesFrom(size: nat, offset: nat): seq<AdoptionPlan>
      requires size > 0
      decreases |extensions| - offset
    {
      if offset >= |extensions| then []
      else
        var end := if offset + size < |extensions| then offset + size else |extensions|;
        [AdoptionPlan(sourceClaims, registeredIds, extensions[offset..end])] + BatchesFrom(size, offset + size)
    }
  }

  function Ids(claims: seq<Claim>): (ids: seq<nat>) {
    Map((claim: Claim) => claim.claimId, claims)
  }

  function ExtensionIds(extensions: seq<ClaimExtension>): (ids: seq<nat>) {
    Map((extension: ClaimExtension) => extension.claimId, extensions)
  }

  function TotalSize(extensions: seq<ClaimExtension>): nat {
    if extensions == [] then 0 else extensions[0].size + TotalSize(extensions[1..])
  }

  function TotalClaimed(claims: seq<Claim>): nat {
    if claims == [] then 0 else claims[0].size + TotalClaimed(claims[1..])
  }

  function ExtensionTermMax(claim: Claim, currentEpoch: nat): Result<nat, MigrationError> {
    var newTermMax := currentEpoch + MAXIMUM_VERIFIED_ALLOCATION_TERM - claim.termStart - CLAIM_TERM_RESERVE_EPOCHS;
    if claim.EndEpoch() <= currentEpoch then Err(ClaimExpired(claim.claimId, claim.EndEpoch()))
    else if newTermMax <= claim.termMax then Err(NothingLeftToExtend(claim.claimId))
    else Ok(newTermMax)
  }

  function Extensions(claims: seq<Claim>, registered: seq<nat>, currentEpoch: nat)
    : Result<seq<ClaimExtension>, MigrationError>
  {
    if claims == [] then Ok([])
    else if claims[0].claimId in registered then Extensions(claims[1..], registered, currentEpoch)
    else
      var newTermMax :- ExtensionTermMax(claims[0], currentEpoch);
      var rest :- Extensions(claims[1..], registered, currentEpoch);
      Ok([ClaimExtension(claims[0].provider, claims[0].claimId, newTermMax, claims[0].size)] + rest)
  }

  function BuildAdoptionPlan(sourceClaims: seq<Claim>, registered: seq<nat>, currentEpoch: nat)
    : Result<AdoptionPlan, MigrationError>
  {
    var sourceIds := Ids(sourceClaims);
    var foreign := Elements(registered) - Elements(sourceIds);
    if sourceIds == [] || !Distinct(sourceIds) then Err(SourceEmptyOrDuplicated)
    else if !Distinct(registered) then Err(RegisteredDuplicated)
    else if foreign != {} then Err(ForeignClaims(foreign))
    else
      var extensions :- Extensions(sourceClaims, registered, currentEpoch);
      Ok(AdoptionPlan(sourceClaims, Elements(registered), extensions))
  }

  // ---- when there is a plan, and what is in it ----

  /** The claim is still running, and its end can be moved out to five years from now less the reserve. */
  predicate Extendable(claim: Claim, currentEpoch: nat) {
    currentEpoch < claim.EndEpoch() < currentEpoch + (5 * 365 - 1) * 2880
  }

  /** The claims still to be registered, in order. */
  function MissingClaims(claims: seq<Claim>, registered: seq<nat>): seq<Claim> {
    if claims == [] then []
    else (if claims[0].claimId in registered then [] else [claims[0]]) + MissingClaims(claims[1..], registered)
  }

  /** The extension is of this claim, and moves its end past the old one to five years from now less the reserve. */
  predicate Extends(e: ClaimExtension, claim: Claim, currentEpoch: nat) {
    && e.claimId == claim.claimId && e.provider == claim.provider && e.size == claim.size
    && claim.termStart + e.newTermMax == currentEpoch + (5 * 365 - 1) * 2880
    && claim.termStart + e.newTermMax > claim.EndEpoch() > currentEpoch
  }

  predicate ExtendEach(extensions: seq<ClaimExtension>, claims: seq<Claim>, currentEpoch: nat) {
    |extensions| == |claims| && forall k :: 0 <= k < |claims| ==> Extends(extensions[k], claims[k], currentEpoch)
  }

  lemma {:induction false} ExtensionsOfMissing(claims: seq<Claim>, registered: seq<nat>, currentEpoch: nat)
    ensures var r := Extensions(claims, registered, currentEpoch);
            && (r.Ok? <==> forall c :: c in MissingClaims(claims, registered) ==> Extendable(c, currentEpoch))
            && (r.Ok? ==> ExtendEach(r.value, MissingClaims(claims, registered), currentEpoch))
  {
    if claims != [] {
      var missing := MissingClaims(claims[1..], registered);
      ExtensionsOfMissing(claims[1..], registered, currentEpoch);
      assert forall c :: c in [claims[0]] + missing <==> c == claims[0] || c in missing;
      assert ExtensionTermMax(claims[0], currentEpoch).Ok? <==> Extendable(claims[0], currentEpoch);
    }
  }

  lemma OneMoreId(claim: Claim, claims: seq<Claim>)
    ensures Elements(Ids([claim] + claims)) == {claim.claimId} + Elements(Ids(claims))
    ensures Distinct(Ids([claim] + claims)) <==> Distinct(Ids(claims)) && claim.claimId !in Elements(Ids(claims))
  {
    assert Ids([claim] + claims) == [claim.claimId] + Ids(claims);
    DistinctConcat([claim.claimId], Ids(claims));
    ElementsConcat([claim.claimId], Ids(claims));
    assert Elements([claim.claimId]) == {claim.claimId};
  }

  /** `missing` are the claims whose ids are not registered, and are distinct when the claims are. */
  ghost predicate AreMissing(missing: seq<Claim>, claims: seq<Claim>, registered: seq<nat>) {
    && Elements(Ids(missing)) == Elements(Ids(claims)) - Elements(registered)
    && (Distinct(Ids(claims)) ==> Distinct(Ids(missing)))
  }

  lemma OneMoreMissing(claim: Claim, missing: seq<Claim>, claims: seq<Claim>, registered: seq<nat>)
    requires AreMissing(missing, claims, registered)
    ensures claim.claimId in registered ==> AreMissing(missing, [claim] + claims, registered)
    ensures claim.claimId !in registered ==> AreMissing([claim] + missing, [claim] + claims, registered)
  {
    OneMoreId(claim, claims);
    OneMoreId(claim, missing);
    LessHeld(claim.claimId, Elements(Ids(claims)), Elements(registered));
    assert claim.claimId in registered <==> claim.claimId in Elements(registered);
    hide Distinct, Elements, Ids;
  }

  lemma LessHeld(id: nat, all: set<nat>, held: set<nat>)
    ensures {id} + all - held == if id in held then all - held else {id} + (all - held)
    ensures all - held <= all
  {
  }

  lemma {:induction false} MissingIds(claims: seq<Claim>, registered: seq<nat>)
    ensures AreMissing(MissingClaims(claims, registered), claims, registered)
  {
    if claims != [] {
      MissingIds(claims[1..], registered);
      OneMoreMissing(claims[0], MissingClaims(claims[1..], registered), claims[1..], registered);
      assert claims == [claims[0]] + claims[1..] &&
             [] + MissingClaims(claims[1..], registered) == MissingClaims(claims[1..], registered);
      hide AreMissing;
    }
  }

  /** There is a plan exactly when the V1 claims are some and distinct, the registered ids are distinct and among them,
      and every claim not registered yet can be extended. */
  lemma PlanExists(sourceClaims: seq<Claim>, registered: seq<nat>, currentEpoch: nat)
    ensures BuildAdoptionPlan(sourceClaims, registered, currentEpoch).Ok?
            <==> (&& sourceClaims != [] && Distinct(Ids(sourceClaims)) && Distinct(registered)
                  && Elements(registered) <= Elements(Ids(sourceClaims))
                  && forall c :: c in MissingClaims(sourceClaims, registered) ==> Extendable(c, currentEpoch))
  {
    ExtensionsOfMissing(sourceClaims, registered, currentEpoch);
    var foreign := Elements(registered) - Elements(Ids(sourceClaims));
    if foreign == {} {
      assert forall x | x in Elements(registered) :: x !in foreign;
    }
  }

  lemma {:induction false} FirstFailure(claims: seq<Claim>, registered: seq<nat>, currentEpoch: nat) returns (k: nat)
    requires Extensions(claims, registered, currentEpoch).Err?
    ensures var missing := MissingClaims(claims, registered);
            && k < |missing| && (forall j :: 0 <= j < k ==> Extendable(missing[j], currentEpoch))
            && ExtensionTermMax(missing[k], currentEpoch) == Err(Extensions(claims, registered, currentEpoch).error)
  {
    var missing := MissingClaims(claims[1..], registered);
    if claims[0].claimId in registered {
      k := FirstFailure(claims[1..], registered, currentEpoch);
      assert [] + missing == missing;
    } else if ExtensionTermMax(claims[0], currentEpoch).Err? {
      k := 0;
    } else {
      var rest := FirstFailure(claims[1..], registered, currentEpoch);
      k := rest + 1;
    }
  }

  /** A plan is refused for what is wrong: the ids reported as foreign are all those registered and not in the deal, and
      the claim reported as expired, or as having nothing left to extend, is the first missing one that is so. */
  lemma RefusedPlans(sourceClaims: seq<Claim>, registered: seq<nat>, currentEpoch: nat) returns (k: nat)
    requires BuildAdoptionPlan(sourceClaims, registered, currentEpoch).Err?
    ensures var error := BuildAdoptionPlan(sourceClaims, registered, currentEpoch).error;
            var missing := MissingClaims(sourceClaims, registered);
            match error
            case SourceEmptyOrDuplicated => sourceClaims == [] || !Distinct(Ids(sourceClaims))
            case RegisteredDuplicated => !Distinct(registered)
            case ForeignClaims(ids) => ids != {} && ids == Elements(registered) - Elements(Ids(sourceClaims))
            case ClaimExpired(id, end) =>
              && k < |missing| && (forall j :: 0 <= j < k ==> Extendable(missing[j], currentEpoch))
              && missing[k].claimId == id && missing[k].EndEpoch() == end <= currentEpoch
            case NothingLeftToExtend(id) =>
              && k < |missing| && (forall j :: 0 <= j < k ==> Extendable(missing[j], currentEpoch))
              && missing[k].claimId == id
              && currentEpoch < missing[k].EndEpoch() && !Extendable(missing[k], currentEpoch)
            case _ => false
  {
    k := 0;
    if Extensions(sourceClaims, registered, currentEpoch).Err? {
      k := FirstFailure(sourceClaims, registered, currentEpoch);
    }
  }

  /** The ids to extend and the registered ids partition the source ids; the extensions are those of the missing claims,
      one each and in order; and the plan is complete exactly when everything is registered. */
  lemma PlanPartitions(sourceClaims: seq<Claim>, registered: seq<nat>, currentEpoch: nat)
    requires BuildAdoptionPlan(sourceClaims, registered, currentEpoch).Ok?
    ensures var plan := BuildAdoptionPlan(sourceClaims, registered, currentEpoch).value;
            && ExtendEach(plan.extensions, MissingClaims(sourceClaims, registered), currentEpoch)
            && Distinct(ExtensionIds(plan.extensions))
            && plan.registeredIds == Elements(registered)
            && Elements(ExtensionIds(plan.extensions)) !! plan.registeredIds
            && Elements(ExtensionIds(plan.extensions)) + plan.registeredIds == plan.SourceIds()
            && (plan.Complete() <==> plan.registeredIds == plan.SourceIds())
  {
    var plan := BuildAdoptionPlan(sourceClaims, registered, currentEpoch).value;
    var missing := MissingClaims(sourceClaims, registered);
    ExtensionsOfMissing(sourceClaims, registered, currentEpoch);
    MissingIds(sourceClaims, registered);
    assert ExtensionIds(plan.extensions) == Ids(missing);
    PlanExists(sourceClaims, registered, currentEpoch);
    if plan.extensions != [] {
      assert ExtensionIds(plan.extensions)[0] in Elements(ExtensionIds(plan.extensions));
    }
  }

  // ---- batches ----

  function AllExtensions(batches: seq<AdoptionPlan>): seq<ClaimExtension> {
    if batches == [] then [] else batches[0].extensions + AllExtensions(batches[1..])
  }

  function TotalAmount(batches: seq<AdoptionPlan>): nat {
    if batches == [] then 0 else batches[0].DatacapAmount() + TotalAmount(batches[1..])
  }

  lemma {:induction false} TotalSizeConcat(a: seq<ClaimExtension>, b: seq<ClaimExtension>)
    ensures TotalSize(a + b) == TotalSize(a) + TotalSize(b)
  {
    if a == [] {
      assert a + b == b;
    } else {
      assert (a + b)[1..] == a[1..] + b;
      TotalSizeConcat(a[1..], b);
    }
  }

  function EndOfBatch(plan: AdoptionPlan, size: nat, offset: nat): (end: nat)
    requires size > 0 && offset < |plan.extensions|
    ensures offset < end <= |plan.extensions|
  {
    if offset + size < |plan.extensions| then offset + size else |plan.extensions|
  }

  lemma OneMoreBatchFrom(plan: AdoptionPlan, size: nat, offset: nat)
    requires size > 0 && offset < |plan.extensions|
    ensures var end := EndOfBatch(plan, size, offset);
            plan.BatchesFrom(size, offset)
            == [AdoptionPlan(plan.sourceClaims, plan.registeredIds, plan.extensions[offset..end])]
               + plan.BatchesFrom(size, end)
  {
  }

  lemma {:induction false} BatchesFromConserve(plan: AdoptionPlan, size: nat, offset: nat)
    requires 0 < size && offset <= |plan.extensions|
    ensures var batches := plan.BatchesFrom(size, offset);
            && AllExtensions(batches) == plan.extensions[offset..]
            && (forall i :: 0 <= i < |batches| ==>
                  && batches[i].sourceClaims == plan.sourceClaims && batches[i].registeredIds == plan.registeredIds
                  && 1 <= |batches[i].extensions| <= size
                  && (i < |batches| - 1 ==> |batches[i].extensions| == size))
    decreases |plan.extensions| - offset
  {
    if offset < |plan.extensions| {
      var end := EndOfBatch(plan, size, offset);
      OneMoreBatchFrom(plan, size, offset);
      BatchesFromConserve(plan, size, end);
      assert plan.extensions[offset..] == plan.extensions[offset..end] + plan.extensions[end..];
    }
  }

  lemma {:induction false} AmountsAddUp(batches: seq<AdoptionPlan>)
    ensures TotalAmount(batches) == TotalSize(AllExtensions(batches)) * DATACAP_PRECISION
  {
    if batches != [] {
      AmountsAddUp(batches[1..]);
      TotalSizeConcat(batches[0].extensions, AllExtensions(batches[1..]));
    }
  }

  /** Cutting a plan into batches loses, adds and reorders nothing: the batches concatenate to the extensions, all but
      the last are full, and their DataCap amounts add up to that of the plan. */
  lemma BatchesConserve(plan: AdoptionPlan, size: int)
    ensures plan.Batches(size).Ok? <==> size > 0
    ensures size > 0 ==>
              var batches := plan.Batches(size).value;
              && AllExtensions(batches) == plan.extensions
              && TotalAmount(batches) == plan.DatacapAmount()
              && (forall i :: 0 <= i < |batches| ==>
                    && batches[i].sourceClaims == plan.sourceClaims
                    && 1 <= |batches[i].extensions| <= size
                    && (i < |batches| - 1 ==> |batches[i].extensions| == size))
  {
    if size > 0 {
      BatchesFromConserve(plan, size, 0);
      AmountsAddUp(plan.BatchesFrom(size, 0));
      assert plan.extensions[0..] == plan.extensions;
    }
  }

  lemma {:induction false} SizesOfExtended(extensions: seq<ClaimExtension>, claims: seq<Claim>, currentEpoch: nat)
    requires ExtendEach(extensions, claims, currentEpoch)
    ensures TotalSize(extensions) == TotalClaimed(claims)
  {
    if claims != [] {
      assert Extends(extensions[0], claims[0], currentEpoch);
      assert forall k :: 0 <= k < |claims[1..]| ==> claims[1..][k] == claims[k + 1];
      SizesOfExtended(extensions[1..], claims[1..], currentEpoch);
    }
  }

  lemma {:induction false} MissingAndRegistered(claims: seq<Claim>, registered: seq<nat>)
    ensures TotalClaimed(MissingClaims(claims, registered)) + BytesOf(claims, Elements(registered))
         == TotalClaimed(claims)
  {
    if claims != [] {
      MissingAndRegistered(claims[1..], registered);
      assert claims[0].claimId in registered <==> claims[0].claimId in Elements(registered);
      var rest := MissingClaims(claims[1..], registered);
      assert ([claims[0]] + rest)[1..] == rest && [] + rest == rest;
    }
  }

  /** The DataCap of a plan is the size of the claims that are not registered yet, 10^18 for each byte. */
  lemma AmountOfPlan(sourceClaims: seq<Claim>, registered: seq<nat>, currentEpoch: nat)
    requires BuildAdoptionPlan(sourceClaims, registered, currentEpoch).Ok?
    ensures var plan := BuildAdoptionPlan(sourceClaims, registered, currentEpoch).value;
            && plan.DatacapAmount()
               == TotalClaimed(MissingClaims(sourceClaims, registered)) * 1_000_000_000_000_000_000
            && plan.DatacapAmount()
               == (TotalClaimed(sourceClaims) - BytesOf(sourceClaims, Elements(registered))) * 1_000_000_000_000_000_000
  {
    PlanPartitions(sourceClaims, registered, currentEpoch);
    var plan := BuildAdoptionPlan(sourceClaims, registered, currentEpoch).value;
    SizesOfExtended(plan.extensions, MissingClaims(sourceClaims, registered), currentEpoch);
    MissingAndRegistered(sourceClaims, registered);
  }

  /** Where batch `k` starts and ends among the extensions, counted from `offset`. */
  lemma {:induction false} BatchAt(plan: AdoptionPlan, size: nat, offset: nat, k: nat)
    requires 0 < size && k < |plan.BatchesFrom(size, offset)|
    ensures var start := offset + k * size;
            && start < |plan.extensions|
            && plan.BatchesFrom(size, offset)[k].extensions
               == plan.extensions[start..if start + size < |plan.extensions| then start + size else |plan.extensions|]
    decreases k
  {
    if k > 0 {
      BatchAt(plan, size, offset + size, k - 1);
      NextMultiple(k, size);
    }
  }

  lemma NextMultiple(k: nat, size: nat)
    requires k > 0
    ensures size + (k - 1) * size == k * size
  {
  }

  lemma SizesOfSlice(extensions: seq<ClaimExtension>, claims: seq<Claim>, currentEpoch: nat, start: nat, end: nat)
    requires ExtendEach(extensions, claims, currentEpoch) && start <= end <= |claims|
    ensures ExtensionIds(extensions[start..end]) == Ids(claims[start..end])
    ensures TotalSize(extensions[start..end]) == TotalClaimed(claims[start..end])
  {
    assert forall i :: start <= i < end ==> Extends(extensions[i], claims[i], currentEpoch);
    SizesOfExtended(extensions[start..end], claims[start..end], currentEpoch);
  }

  lemma AmountOfPart(plan: AdoptionPlan, claims: seq<Claim>, currentEpoch: nat, size: nat, k: nat, start: nat)
    requires ExtendEach(plan.extensions, claims, currentEpoch) && size > 0 && start == k * size
    requires k < |plan.BatchesFrom(size, 0)|
    ensures start < |claims|
    ensures var batch := plan.BatchesFrom(size, 0)[k];
            var taken := claims[start..if start + size < |claims| then start + size else |claims|];
            && ExtensionIds(batch.extensions) == Ids(taken)
            && batch.DatacapAmount() == TotalClaimed(taken) * 1_000_000_000_000_000_000
  {
    BatchAt(plan, size, 0, k);
    hide ExtendEach, ExtensionIds, Ids, TotalSize, TotalClaimed, AdoptionPlan.BatchesFrom;
    assert |plan.extensions| == |claims| by {
      SameLength(plan.extensions, claims, currentEpoch);
    }
    SizesOfSlice(plan.extensions, claims, currentEpoch, start,
                 if start + size < |claims| then start + size else |claims|);
  }

  lemma SameLength(extensions: seq<ClaimExtension>, claims: seq<Claim>, currentEpoch: nat)
    requires ExtendEach(extensions, claims, currentEpoch)
    ensures |extensions| == |claims|
  {
  }

  lemma PlanExtends(sourceClaims: seq<Claim>, registered: seq<nat>, currentEpoch: nat)
    requires BuildAdoptionPlan(sourceClaims, registered, currentEpoch).Ok?
    ensures ExtendEach(BuildAdoptionPlan(sourceClaims, registered, currentEpoch).value.extensions,
                       MissingClaims(sourceClaims, registered), currentEpoch)
  {
    hide ExtendEach, MissingClaims;
    PlanPartitions(sourceClaims, registered, currentEpoch);
  }

  /** The DataCap of batch `k` is the size of the claims it takes, which are the next ones of those not registered
      yet. */
  lemma AmountOfBatch(sourceClaims: seq<Claim>, registered: seq<nat>, currentEpoch: nat, size: nat, k: nat)
    requires BuildAdoptionPlan(sourceClaims, registered, currentEpoch).Ok? && size > 0
    requires k < |BuildAdoptionPlan(sourceClaims, registered, currentEpoch).value.Batches(size).value|
    ensures var batch := BuildAdoptionPlan(sourceClaims, registered, currentEpoch).value.Batches(size).value[k];
            var missing := MissingClaims(sourceClaims, registered);
            && k * size < |missing|
            && var taken := missing[k * size..if k * size + size < |missing| then k * size + size else |missing|];
            && ExtensionIds(batch.extensions) == Ids(taken)
            && batch.DatacapAmount() == TotalClaimed(taken) * 1_000_000_000_000_000_000
  {
    hide BuildAdoptionPlan, MissingClaims, ExtensionIds, Ids, TotalSize, TotalClaimed, ExtendEach,
         AdoptionPlan.BatchesFrom, AdoptionPlan.DatacapAmount;
    PlanExtends(sourceClaims, registered, currentEpoch);
    var plan := BuildAdoptionPlan(sourceClaims, registered, currentEpoch).value;
    AmountOfPart(plan, MissingClaims(sourceClaims, registered), currentEpoch, size, k, k * size);
  }

  /** The extensions are of distinct claims among `ids`. */
  predicate DistinctWithin(extensions: seq<ClaimExtension>, ids: set<nat>) {
    Distinct(ExtensionIds(extensions)) && Elements(ExtensionIds(extensions)) <= ids
  }

  lemma PartsWithin(a: seq<ClaimExtension>, b: seq<ClaimExtension>, ids: set<nat>)
    requires DistinctWithin(a + b, ids)
    ensures DistinctWithin(a, ids) && DistinctWithin(b, ids)
  {
    assert ExtensionIds(a + b) == ExtensionIds(a) + ExtensionIds(b);
    DistinctConcat(ExtensionIds(a), ExtensionIds(b));
    ElementsConcat(ExtensionIds(a), ExtensionIds(b));
  }

  lemma {:induction false} BatchesWithin(batches: seq<AdoptionPlan>, ids: set<nat>, k: nat)
    requires k < |batches| && DistinctWithin(AllExtensions(batches), ids)
    ensures DistinctWithin(batches[k].extensions, ids)
  {
    hide DistinctWithin;
    PartsWithin(batches[0].extensions, AllExtensions(batches[1..]), ids);
    if k > 0 {
      BatchesWithin(batches[1..], ids, k - 1);
    }
  }

  /** Every batch of a plan holds distinct source ids that were not registered when the plan was made. */
  lemma BatchOfPlan(sourceClaims: seq<Claim>, registered: seq<nat>, currentEpoch: nat, size: nat, k: nat)
    requires BuildAdoptionPlan(sourceClaims, registered, currentEpoch).Ok? && size > 0
    requires k < |BuildAdoptionPlan(sourceClaims, registered, currentEpoch).value.Batches(size).value|
    ensures var batches := BuildAdoptionPlan(sourceClaims, registered, currentEpoch).value.Batches(size).value;
            DistinctWithin(batches[k].extensions, Elements(Ids(sourceClaims)) - Elements(registered))
  {
    var plan := BuildAdoptionPlan(sourceClaims, registered, currentEpoch).value;
    PlanPartitions(sourceClaims, registered, currentEpoch);
    BatchesConserve(plan, size);
    BatchesWithin(plan.Batches(size).value, Elements(Ids(sourceClaims)) - Elements(registered), k) by {
      PlanKeepsClaims(sourceClaims, registered, currentEpoch);
    }
  }

  lemma PlanKeepsClaims(sourceClaims: seq<Claim>, registered: seq<nat>, currentEpoch: nat)
    requires BuildAdoptionPlan(sourceClaims, registered, currentEpoch).Ok?
    ensures BuildAdoptionPlan(sourceClaims, registered, currentEpoch).value.sourceClaims == sourceClaims
  {
  }

  // ---- what is sent ----

  /** The DataCap amount as big-endian bytes. */
  function AmountBytes(amount: nat): seq<nat> {
    ToDigits(256, (BitLength(amount) + 7) / 8, amount)
  }

  lemma PowOf256(n: nat)
    ensures Pow(256, n) == Pow(2, 8 * n)
  {
    if n > 0 {
      PowOf256(n - 1);
      PowAdd(2, 8 * (n - 1), 8);
      assert Pow(2, 8) == 256 by {
        PowAdd(2, 4, 4);
      }
    }
  }

  /** The bytes read back as the amount, and there is no leading zero byte to spare. */
  lemma AmountBytesExact(amount: nat)
    ensures FromDigits(256, AmountBytes(amount)) == amount
    ensures AmountBytes(amount) != [] ==> AmountBytes(amount)[0] != 0
  {
    var n := (BitLength(amount) + 7) / 8;
    hide ToDigits, FromDigits, BitLength;
    PowOf256(n);
    BitLengthLeast(amount, 8 * n);
    ToFromDigits(256, n, amount);
    if n > 0 {
      var bytes := AmountBytes(amount);
      if bytes[0] == 0 {
        LeadingZero(bytes);
        PowOf256(n - 1);
        BitLengthLeast(amount, 8 * (n - 1));
      }
    }
  }

  lemma LeadingZero(digits: seq<nat>)
    requires digits != [] && digits[0] == 0 && DigitsOf(256, digits)
    ensures FromDigits(256, digits) < Pow(256, |digits| - 1)
  {
    assert digits == [0] + digits[1..];
    FromDigitsConcat(256, [0], digits[1..]);
    FromDigitsBound(256, digits[1..]);
    assert [0][..0] == [] && FromDigits(256, [0]) == 0;
  }

  datatype Row = Row(provider: nat, claimId: nat, newTermMax: nat)

  predicate FitsUint64(e: ClaimExtension) {
    e.provider <= MAX_UINT64 && e.claimId <= MAX_UINT64 && e.newTermMax <= MAX_UINT64
  }

  /** The rows of the operator data, refused when any value leaves the uint64 range of CBOR. */
  function OperatorRows(extensions: seq<ClaimExtension>): (r: Result<seq<Row>, MigrationError>)
    ensures r.Ok? <==> forall i :: 0 <= i < |extensions| ==>
                         && extensions[i].provider < 18_446_744_073_709_551_616
                         && extensions[i].claimId < 18_446_744_073_709_551_616
                         && extensions[i].newTermMax < 18_446_744_073_709_551_616
    ensures r.Ok? ==> |r.value| == |extensions|
    ensures r.Ok? ==> forall i :: 0 <= i < |extensions| ==>
                        r.value[i] == Row(extensions[i].provider, extensions[i].claimId, extensions[i].newTermMax)
  {
    if extensions == [] then Ok([])
    else if !FitsUint64(extensions[0]) then Err(OutsideUint64)
    else
      var rest :- OperatorRows(extensions[1..]);
      Ok([Row(extensions[0].provider, extensions[0].claimId, extensions[0].newTermMax)] + rest)
  }

  // ---- what is read back ----

  /** Bytes of the source claims with an id in `ids`. */
  function BytesOf(claims: seq<Claim>, ids: set<nat>): nat {
    if claims == [] then 0
    else (if claims[0].claimId in ids then claims[0].size else 0) + BytesOf(claims[1..], ids)
  }

  function CheckRegisteredBytes(claims: seq<Claim>, registered: set<nat>, allocatedBytes: nat)
    : Result<(), MigrationError>
  {
    var expected := BytesOf(claims, registered);
    if allocatedBytes != expected then Err(BytesMismatch(allocatedBytes, expected)) else Ok(())
  }

  /** The claims after the batch landed: each submitted one is there with at least its new term. */
  function CheckTerms(extensions: seq<ClaimExtension>, termMax: map<nat, nat>): Result<(), MigrationError> {
    if extensions == [] then Ok(())
    else if extensions[0].claimId !in termMax then Err(ClaimDisappeared(extensions[0].claimId))
    else if termMax[extensions[0].claimId] < extensions[0].newTermMax then Err(NotExtended(extensions[0].claimId))
    else CheckTerms(extensions[1..], termMax)
  }

  function ValidateBatchReceipt(plan: AdoptionPlan, batch: AdoptionPlan, registered: set<nat>, allocatedBytes: nat,
                                termMax: map<nat, nat>)
    : Result<(), MigrationError>
  {
    var submitted := Elements(ExtensionIds(batch.extensions));
    if !(submitted <= registered) then Err(NotRegistered(submitted - registered))
    else if !(registered <= plan.SourceIds()) then Err(OutsideDeal(registered - plan.SourceIds()))
    else
      var _ :- CheckRegisteredBytes(plan.sourceClaims, registered, allocatedBytes);
      CheckTerms(batch.extensions, termMax)
  }

  lemma {:induction false} TermsExtended(extensions: seq<ClaimExtension>, termMax: map<nat, nat>)
    ensures CheckTerms(extensions, termMax).Ok?
            <==> forall i :: 0 <= i < |extensions| ==>
                   && extensions[i].claimId in termMax
                   && termMax[extensions[i].claimId] >= extensions[i].newTermMax
  {
    if extensions != [] {
      var rest := extensions[1..];
      TermsExtended(rest, termMax);
      assert forall i :: 0 <= i < |rest| ==> rest[i] == extensions[i + 1];
      assert forall i :: 0 < i < |extensions| ==> extensions[i] == rest[i - 1];
    }
  }

  /** Sizes of the claims by id. */
  function SizeMap(claims: seq<Claim>): map<nat, nat> {
    if claims == [] then map[] else SizeMap(claims[1..])[claims[0].claimId := claims[0].size]
  }

  function SumSizes(sizes: map<nat, nat>, ids: seq<nat>): nat {
    if ids == [] then 0
    else SumSizes(sizes, ids[..|ids| - 1]) + (if ids[|ids| - 1] in sizes then sizes[ids[|ids| - 1]] else 0)
  }

  lemma SumSizesConcat(sizes: map<nat, nat>, a: seq<nat>, b: seq<nat>)
    ensures SumSizes(sizes, a + b) == SumSizes(sizes, a) + SumSizes(sizes, b)
    decreases |b|
  {
    if b == [] {
      assert a + b == a;
    } else {
      var init, last := b[..|b| - 1], b[|b| - 1];
      assert (a + b)[..|a + b| - 1] == a + init;
      SumSizesConcat(sizes, a, init);
    }
  }

  lemma {:induction false} SizeMapKeys(claims: seq<Claim>)
    ensures SizeMap(claims).Keys == Elements(Ids(claims))
  {
    if claims != [] {
      assert Ids(claims) == [claims[0].claimId] + Ids(claims[1..]);
      SizeMapKeys(claims[1..]);
    }
  }

  lemma {:induction false} SizeMapAt(claims: seq<Claim>, i: nat)
    requires Distinct(Ids(claims)) && i < |claims|
    ensures claims[i].claimId in SizeMap(claims) && SizeMap(claims)[claims[i].claimId] == claims[i].size
  {
    if i > 0 {
      assert Ids(claims)[0] != Ids(claims)[i];
      assert Ids(claims[1..]) == Ids(claims)[1..];
      SizeMapAt(claims[1..], i - 1);
    }
  }

  lemma SizeMapOf(claims: seq<Claim>)
    requires Distinct(Ids(claims))
    ensures SizeMap(claims).Keys == Elements(Ids(claims))
    ensures forall i :: 0 <= i < |claims| ==>
              claims[i].claimId in SizeMap(claims) && SizeMap(claims)[claims[i].claimId] == claims[i].size
  {
    hide SizeMap, Distinct;
    SizeMapKeys(claims);
    forall i | 0 <= i < |claims|
      ensures claims[i].claimId in SizeMap(claims) && SizeMap(claims)[claims[i].claimId] == claims[i].size
    {
      SizeMapAt(claims, i);
    }
  }

  lemma {:induction false} BytesWithOneMore(claims: seq<Claim>, ids: set<nat>, id: nat)
    requires Distinct(Ids(claims)) && id !in ids
    ensures BytesOf(claims, ids + {id})
            == BytesOf(claims, ids) + (if id in SizeMap(claims) then SizeMap(claims)[id] else 0)
  {
    if claims != [] {
      var rest := claims[1..];
      assert Ids(rest) == Ids(claims)[1..];
      BytesWithOneMore(rest, ids, id);
      SizeMapOf(rest);
      if claims[0].claimId == id {
        assert id !in Ids(rest);
      }
    }
  }

  lemma {:induction false} BytesOfNone(claims: seq<Claim>)
    ensures BytesOf(claims, {}) == 0
  {
    if claims != [] {
      BytesOfNone(claims[1..]);
    }
  }

  /** When every claim is registered, the byte check compares with the size that is checked before adoption. */
  lemma {:induction false} BytesOfAll(claims: seq<Claim>, ids: set<nat>)
    requires Elements(Ids(claims)) <= ids
    ensures BytesOf(claims, ids) == TotalClaimed(claims)
  {
    if claims != [] {
      assert Ids(claims)[0] in Elements(Ids(claims));
      assert Ids(claims) == [claims[0].claimId] + Ids(claims[1..]);
      BytesOfAll(claims[1..], ids);
    }
  }

  /** The byte check compares with the sum of the sizes of the registered claims, in whatever order they are. */
  lemma {:induction false} BytesAreSum(claims: seq<Claim>, registered: seq<nat>)
    requires Distinct(Ids(claims)) && Distinct(registered)
    ensures BytesOf(claims, Elements(registered)) == SumSizes(SizeMap(claims), registered)
  {
    if registered == [] {
      assert Elements(registered) == {};
      BytesOfNone(claims);
    } else {
      var init, last := registered[..|registered| - 1], registered[|registered| - 1];
      BytesAreSum(claims, init);
      assert registered == init + [last];
      assert last !in init;
      assert Elements(registered) == Elements(init) + {last};
      BytesWithOneMore(claims, Elements(init), last);
    }
  }

  /** A receipt is accepted exactly when the adapter holds all submitted claims and none from outside the deal, counts
      the bytes of those it holds, and every submitted claim is found with its extended term. */
  lemma ReceiptAccepted(plan: AdoptionPlan, batch: AdoptionPlan, registered: seq<nat>, allocatedBytes: nat,
                        termMax: map<nat, nat>)
    requires Distinct(Ids(plan.sourceClaims)) && Distinct(registered)
    ensures ValidateBatchReceipt(plan, batch, Elements(registered), allocatedBytes, termMax).Ok?
            <==> (&& Elements(ExtensionIds(batch.extensions)) <= Elements(registered) <= plan.SourceIds()
                  && allocatedBytes == SumSizes(SizeMap(plan.sourceClaims), registered)
                  && forall i :: 0 <= i < |batch.extensions| ==>
                       && batch.extensions[i].claimId in termMax
                       && termMax[batch.extensions[i].claimId] >= batch.extensions[i].newTermMax)
  {
    BytesAreSum(plan.sourceClaims, registered);
    TermsExtended(batch.extensions, termMax);
  }

  /** Where the check of the terms fails first. */
  lemma {:induction false} FirstUnextended(extensions: seq<ClaimExtension>, termMax: map<nat, nat>) returns (k: nat)
    requires CheckTerms(extensions, termMax).Err?
    ensures k < |extensions| && forall j :: 0 <= j < k ==>
              extensions[j].claimId in termMax && termMax[extensions[j].claimId] >= extensions[j].newTermMax
    ensures var id := extensions[k].claimId;
            CheckTerms(extensions, termMax).error
            == if id !in termMax then ClaimDisappeared(id) else NotExtended(id)
    ensures extensions[k].claimId in termMax ==> termMax[extensions[k].claimId] < extensions[k].newTermMax
  {
    k := 0;
    if CheckTerms(extensions[1..], termMax) == CheckTerms(extensions, termMax)
       && extensions[0].claimId in termMax && termMax[extensions[0].claimId] >= extensions[0].newTermMax {
      var rest := FirstUnextended(extensions[1..], termMax);
      k := rest + 1;
      assert forall j :: 0 < j <= k ==> extensions[j] == extensions[1..][j - 1];
    }
  }

  /** A receipt is refused for what is wrong: the submitted claims that are not registered, the registered ones that are
      not of the deal, the bytes that there are and those there should be, or the first claim whose term is not found
      or not extended. */
  lemma RefusedReceipts(plan: AdoptionPlan, batch: AdoptionPlan, registered: set<nat>, allocatedBytes: nat,
                        termMax: map<nat, nat>) returns (k: nat)
    requires ValidateBatchReceipt(plan, batch, registered, allocatedBytes, termMax).Err?
    ensures var error := ValidateBatchReceipt(plan, batch, registered, allocatedBytes, termMax).error;
            var submitted, extensions := Elements(ExtensionIds(batch.extensions)), batch.extensions;
            match error
            case NotRegistered(ids) => !(submitted <= registered) && ids == submitted - registered
            case OutsideDeal(ids) =>
              !(registered <= plan.SourceIds()) && ids == registered - Elements(Ids(plan.sourceClaims))
            case BytesMismatch(actual, expected) =>
              actual == allocatedBytes != expected && expected == BytesOf(plan.sourceClaims, registered)
            case ClaimDisappeared(id) => k < |extensions| && extensions[k].claimId == id && id !in termMax
            case NotExtended(id) =>
              k < |extensions| && extensions[k].claimId == id && id in termMax && termMax[id] < extensions[k].newTermMax
            case _ => false
  {
    k := 0;
    hide ExtensionIds, Ids, BytesOf;
    if CheckTerms(batch.extensions, termMax).Err? {
      k := FirstUnextended(batch.extensions, termMax);
    }
  }

  // ---- sizes within the padding ----

  function LeastSize(requested: nat, paddingBps: nat): int {
    requested * (MAX_BPS as int - paddingBps)
  }

  function MostSize(requested: nat, paddingBps: nat): int {
    requested * (MAX_BPS + paddingBps)
  }

  predicate SizeWithinPadding(allocatedBytes: nat, requested: nat, paddingBps: nat) {
    LeastSize(requested, paddingBps) <= allocatedBytes * MAX_BPS <= MostSize(requested, paddingBps)
  }

  /** The two products say that the allocated bytes differ from the requested ones by at most the padding's share. */
  lemma PaddingBoundsError(allocatedBytes: nat, requested: nat, paddingBps: nat)
    ensures SizeWithinPadding(allocatedBytes, requested, paddingBps)
       <==> -(requested * paddingBps) <= (allocatedBytes - requested) * 10_000 <= requested * paddingBps
  {
    assert requested * (MAX_BPS as int - paddingBps) == requested * MAX_BPS - requested * paddingBps;
    assert requested * (MAX_BPS + paddingBps) == requested * MAX_BPS + requested * paddingBps;
  }
}
