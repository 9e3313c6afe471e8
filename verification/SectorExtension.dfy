/** Which sectors of a migrated deal are extended, and that an extended sector stays out of the selection. */
module SectorExtension {
  import opened Wrappers
  import opened Lists
  import opened AdoptionPlan

  const ACTIVE_DEAL_SECTOR_MARGIN_EPOCHS: nat := 30 * EPOCHS_IN_DAY
  const ACCEPTED_DEAL_SECTOR_MARGIN_EPOCHS: nat := 60 * EPOCHS_IN_DAY

  /** A V2 deal: not ACTIVE yet, with the duration it is proposed for, or ACTIVE until the end of its service. */
  datatype Deal = Pending(durationEpochs: nat) | Active(serviceEndEpoch: nat)

  function SectorTargetEpoch(deal: Deal, currentEpoch: nat): nat {
    match deal
    case Active(serviceEndEpoch) => serviceEndEpoch + ACTIVE_DEAL_SECTOR_MARGIN_EPOCHS
    case Pending(durationEpochs) => currentEpoch + durationEpochs + ACCEPTED_DEAL_SECTOR_MARGIN_EPOCHS
  }

  function SectorRequiredEpoch(deal: Deal, currentEpoch: nat): nat {
    match deal
    case Active(_) => SectorTargetEpoch(deal, currentEpoch)
    case Pending(durationEpochs) => currentEpoch + durationEpochs + ACTIVE_DEAL_SECTOR_MARGIN_EPOCHS
  }

  function Required(deal: Deal, currentEpoch: nat, override: Option<nat>): nat {
    if override.Some? then override.value else SectorRequiredEpoch(deal, currentEpoch)
  }

  function Target(deal: Deal, currentEpoch: nat, override: Option<nat>): nat {
    if override.Some? then override.value else SectorTargetEpoch(deal, currentEpoch)
  }

  /** The sectors to extend. */
  function Below(expirations: map<nat, nat>, requiredEpoch: nat): set<nat> {
    set sector | sector in expirations && expirations[sector] < requiredEpoch
  }

  /** The chain after the given sectors were extended; `sptool` may leave out some of those selected. */
  function Extended(expirations: map<nat, nat>, sectors: set<nat>, epoch: nat): map<nat, nat> {
    map sector | sector in expirations :: if sector in sectors then epoch else expirations[sector]
  }

  datatype SectorError = NoClaims | ClaimNotHeld(claimId: nat) | NotLive(sector: nat)

  /** `id` is the first of the ids that is not among the known ones. */
  ghost predicate FirstMissing(ids: seq<nat>, known: set<nat>, id: nat) {
    exists i :: 0 <= i < |ids| && ids[i] == id && id !in known && Elements(ids[..i]) <= known
  }

  /** The claims behind the ids that the adapter holds. */
  method DealClaims(ids: seq<nat>, rpcClaims: map<nat, Claim>) returns (r: Result<seq<Claim>, SectorError>)
    ensures r.Ok? <==> ids != [] && Elements(ids) <= rpcClaims.Keys
    ensures r.Ok? ==> |r.value| == |ids|
    ensures r.Ok? ==> forall i :: 0 <= i < |ids| ==> r.value[i] == rpcClaims[ids[i]].(claimId := ids[i])
    ensures r.Err? && ids != [] ==>
              r.error.ClaimNotHeld? && FirstMissing(ids, rpcClaims.Keys, r.error.claimId)
  {
    if ids == [] {
      return Err(NoClaims);
    }
    var claims: seq<Claim> := [];
    for i := 0 to |ids|
      invariant |claims| == i
      invariant forall j :: 0 <= j < i ==> ids[j] in rpcClaims && claims[j] == rpcClaims[ids[j]].(claimId := ids[j])
    {
      if ids[i] !in rpcClaims {
        assert Elements(ids[..i]) <= rpcClaims.Keys;
        return Err(ClaimNotHeld(ids[i]));
      }
      claims := claims + [rpcClaims[ids[i]].(claimId := ids[i])];
    }
    return Ok(claims);
  }

  /** Expirations of the sectors, which come sorted; one without an expiration counts as expired at 0. */
  method SectorExpirations(sectors: seq<nat>, info: map<nat, Option<nat>>)
    returns (r: Result<map<nat, nat>, SectorError>)
    ensures r.Ok? <==> Elements(sectors) <= info.Keys
    ensures r.Ok? ==> r.value.Keys == Elements(sectors)
    ensures r.Ok? ==> forall s :: s in r.value ==> r.value[s] == if info[s].Some? then info[s].value else 0
    ensures r.Err? ==> r.error.NotLive? && FirstMissing(sectors, info.Keys, r.error.sector)
  {
    var result: map<nat, nat> := map[];
    for i := 0 to |sectors|
      invariant Elements(sectors[..i]) <= info.Keys && result.Keys == Elements(sectors[..i])
      invariant forall s :: s in result ==> s in info && result[s] == if info[s].Some? then info[s].value else 0
    {
      var sector := sectors[i];
      assert Elements(sectors[..i + 1]) == Elements(sectors[..i]) + {sector};
      if sector !in info {
        return Err(NotLive(sector));
      }
      result := result[sector := if info[sector].Some? then info[sector].value else 0];
    }
    assert sectors[..|sectors|] == sectors;
    return Ok(result);
  }

  // ---- an extended sector stays extended ----

  /** A sector extended at epoch `e` for a deal that is not ACTIVE is left alone later on exactly up to epoch `e` plus
      thirty days, as long as the deal is not ACTIVE. */
  lemma PendingStaysExtended(deal: Deal, e: nat, later: nat)
    requires deal.Pending?
    ensures SectorTargetEpoch(deal, e) >= SectorRequiredEpoch(deal, later) <==> later <= e + 30 * EPOCHS_IN_DAY
  {
  }

  /** Once such a deal is ACTIVE, with a service of its duration, the sector is left alone forever exactly when the deal
      was activated within those thirty days. */
  lemma ActivatedStaysExtended(deal: Deal, e: nat, activation: nat, later: nat)
    requires deal.Pending?
    ensures SectorTargetEpoch(deal, e) >= SectorRequiredEpoch(Active(activation + deal.durationEpochs), later)
       <==> activation <= e + 30 * EPOCHS_IN_DAY
  {
  }

  /** The epoch that sectors have to reach, and the one they are extended to: as given, or for an ACTIVE deal thirty
      days past the end of its service, or for any other that many days past its proposed end, counted from now, but
      sixty when it comes to extending. */
  lemma SelectedAndExtended(expirations: map<nat, nat>, deal: Deal, e: nat, override: Option<nat>, sector: nat)
    requires sector in expirations
    ensures var required := if override.Some? then override.value
                            else if deal.Active? then deal.serviceEndEpoch + 30 * 2880
                            else e + deal.durationEpochs + 30 * 2880;
            var target := if override.Some? then override.value
                          else if deal.Active? then deal.serviceEndEpoch + 30 * 2880
                          else e + deal.durationEpochs + 60 * 2880;
            var short := Below(expirations, Required(deal, e, override));
            var after := Extended(expirations, short, Target(deal, e, override));
            && (sector in short <==> expirations[sector] < required)
            && after.Keys == expirations.Keys
            && after[sector] == (if expirations[sector] < required then target else expirations[sector])
            && after[sector] >= required
  {
    var after := Extended(expirations, Below(expirations, Required(deal, e, override)), Target(deal, e, override));
    assert forall s :: s in after <==> s in expirations;
  }

  /** Extending all selected sectors of an ACTIVE deal, or of any deal to an explicit epoch, leaves none to select at
      any later epoch; so does it for a deal that is not ACTIVE, at the same epoch. */
  lemma NothingLeftToExtend(expirations: map<nat, nat>, deal: Deal, e: nat, later: nat, override: Option<nat>)
    requires deal.Active? || override.Some? || later == e
    ensures var short := Below(expirations, Required(deal, e, override));
            var after := Extended(expirations, short, Target(deal, e, override));
            after.Keys == expirations.Keys && Below(after, Required(deal, later, override)) == {}
  {
    var after := Extended(expirations, Below(expirations, Required(deal, e, override)), Target(deal, e, override));
    assert forall s :: s in after <==> s in expirations;
  }

  // ---- over any sequence of runs ----

  /** A deal through its life: proposed for a duration, and ACTIVE from its activation on, if there is one. */
  datatype Life = Life(durationEpochs: nat, activation: Option<nat>) {
    function At(epoch: nat): Deal {
      if activation.Some? && activation.value <= epoch then Active(activation.value + durationEpochs)
      else Pending(durationEpochs)
    }
  }

  /** A run at an epoch, of which `sptool` extends the selected sectors among `accepted`. */
  datatype ExtendRun = ExtendRun(epoch: nat, accepted: set<nat>)

  predicate InOrder(runs: seq<ExtendRun>) {
    forall i, j :: 0 <= i < j < |runs| ==> runs[i].epoch <= runs[j].epoch
  }

  /** The sectors that a run at this epoch finds too short. */
  function TooShort(expirations: map<nat, nat>, life: Life, epoch: nat): set<nat> {
    Below(expirations, SectorRequiredEpoch(life.At(epoch), epoch))
  }

  function AfterRun(expirations: map<nat, nat>, life: Life, run: ExtendRun): map<nat, nat> {
    Extended(expirations, TooShort(expirations, life, run.epoch) * run.accepted,
             SectorTargetEpoch(life.At(run.epoch), run.epoch))
  }

  function AfterRuns(expirations: map<nat, nat>, life: Life, runs: seq<ExtendRun>): map<nat, nat> {
    if runs == [] then expirations
    else AfterRun(AfterRuns(expirations, life, runs[..|runs| - 1]), life, runs[|runs| - 1])
  }

  /** The `i`-th run extends the sector. */
  predicate ExtendsAt(expirations: map<nat, nat>, life: Life, runs: seq<ExtendRun>, i: nat, sector: nat)
    requires i < |runs|
  {
    sector in TooShort(AfterRuns(expirations, life, runs[..i]), life, runs[i].epoch) * runs[i].accepted
  }

  lemma AfterOneMore(expirations: map<nat, nat>, life: Life, runs: seq<ExtendRun>, i: nat)
    requires i < |runs|
    ensures AfterRuns(expirations, life, runs[..i + 1]) ==
            AfterRun(AfterRuns(expirations, life, runs[..i]), life, runs[i])
  {
    assert runs[..i + 1][..i] == runs[..i];
  }

  /** Until it is extended again, an extended sector expires at the target of its extension. */
  lemma {:induction false} TargetStays(expirations: map<nat, nat>, life: Life, runs: seq<ExtendRun>, i: nat, j: nat,
                                       sector: nat)
    requires i < j <= |runs| && ExtendsAt(expirations, life, runs, i, sector)
    requires forall k :: i < k < j ==> !ExtendsAt(expirations, life, runs, k, sector)
    ensures sector in AfterRuns(expirations, life, runs[..j])
    ensures AfterRuns(expirations, life, runs[..j])[sector] == SectorTargetEpoch(life.At(runs[i].epoch), runs[i].epoch)
    decreases j
  {
    AfterOneMore(expirations, life, runs, j - 1);
    if i < j - 1 {
      TargetStays(expirations, life, runs, i, j - 1, sector);
      assert !ExtendsAt(expirations, life, runs, j - 1, sector);
    }
  }

  /** When an extended sector is found too short again, for the first time since: by a run on a deal that is not ACTIVE
      yet, exactly when more than thirty days have passed; by a run on an ACTIVE deal, exactly when the sector was
      extended before the activation, and that came more than thirty days after the extension. */
  lemma ReselectedExactlyWhen(expirations: map<nat, nat>, life: Life, runs: seq<ExtendRun>, i: nat, j: nat, sector: nat)
    requires i < j < |runs| && InOrder(runs) && ExtendsAt(expirations, life, runs, i, sector)
    requires forall k :: i < k < j ==> !ExtendsAt(expirations, life, runs, k, sector)
    ensures sector in TooShort(AfterRuns(expirations, life, runs[..j]), life, runs[j].epoch)
            <==> (if life.At(runs[j].epoch).Pending? then runs[j].epoch > runs[i].epoch + 30 * EPOCHS_IN_DAY
                  else life.At(runs[i].epoch).Pending? && life.activation.value > runs[i].epoch + 30 * EPOCHS_IN_DAY)
  {
    TargetStays(expirations, life, runs, i, j, sector);
    assert runs[i].epoch <= runs[j].epoch;
  }

  /** Over any sequence of runs, two extensions of a sector are more than thirty days apart, and an ACTIVE deal's
      sectors are extended once at most. */
  lemma {:induction false} ExtensionsAreSpaced(expirations: map<nat, nat>, life: Life, runs: seq<ExtendRun>, i: nat,
                                               j: nat, sector: nat)
    requires i < j < |runs| && InOrder(runs)
    requires ExtendsAt(expirations, life, runs, i, sector) && ExtendsAt(expirations, life, runs, j, sector)
    ensures life.At(runs[i].epoch).Pending? && runs[j].epoch > runs[i].epoch + 30 * EPOCHS_IN_DAY
    decreases j - i
  {
    if k :| i < k < j && ExtendsAt(expirations, life, runs, k, sector) {
      ExtensionsAreSpaced(expirations, life, runs, i, k, sector);
      assert runs[k].epoch <= runs[j].epoch;
    } else {
      ReselectedExactlyWhen(expirations, life, runs, i, j, sector);
    }
  }
}
