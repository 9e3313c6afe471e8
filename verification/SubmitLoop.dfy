/** The loop that posts submissions to Curio, against a server that works on its own and a process that can be killed
    between any two requests.  A run is a function of what the environment does at each of its turns; the loop over a
    server object is proved to be that function, and safety is proved over any sequence of runs. */
module SubmitLoop {
  import opened Lists
  import CurioIdentifier
  import opened PieceSetCommitment
  import opened SubmitDdo

  /** What a status response says of a deal: `Unreadable` when it carries no DDO status. */
  datatype Status = Failed | Unreadable | Live

  datatype Deal = Deal(cidV2: string, status: Status)

  /** Curio's deals by identifier, and the identifiers of all deals ever created by a post. */
  datatype Curio = Curio(deals: map<string, Deal>, posts: seq<string>)

  /** Answer to a status request.  `Unauthorized` is an HTTP 401, which the client treats like the 404 of an unknown
      deal; `LookupFails` is any other HTTP error. */
  datatype Lookup = Answered | Unauthorized | LookupFails

  /** Fate of a post: `Unheard` when the deal is created but the client is killed, or sees an error, before it knows. */
  datatype Post = Created | Unheard | Refused

  /** What happens around one piece: the statuses Curio moved deals to by itself, then its answers. */
  datatype Turn = Turn(progress: map<string, Status>, lookup: Lookup, post: Post)

  datatype Ending = Completed | Killed | Aborted

  datatype RunEnd = RunEnd(curio: Curio, ending: Ending, submitted: nat, alreadySubmitted: nat)

  function Progress(c: Curio, progress: map<string, Status>): Curio {
    c.(deals := map id | id in c.deals :: if id in progress then c.deals[id].(status := progress[id]) else c.deals[id])
  }

  function Create(c: Curio, s: Submission): Curio {
    Curio(c.deals[s.identifier := Deal(s.cidV2, Live)], c.posts + [s.identifier])
  }

  /** One run over `pieces`; it is killed when the turns run out. */
  function Run(c: Curio, pieces: seq<Submission>, turns: seq<Turn>, submitted: nat, already: nat): RunEnd
    decreases |pieces|
  {
    if pieces == [] then RunEnd(c, Completed, submitted, already)
    else if turns == [] then RunEnd(c, Killed, submitted, already)
    else
      var s, t := pieces[0], turns[0];
      var now := Progress(c, t.progress);
      if t.lookup == LookupFails then RunEnd(now, Aborted, submitted, already)
      else if t.lookup == Answered && s.identifier in now.deals then
        if now.deals[s.identifier].status == Live then Run(now, pieces[1..], turns[1..], submitted, already + 1)
        else RunEnd(now, Aborted, submitted, already)
      else match t.post {
        case Created => Run(Create(now, s), pieces[1..], turns[1..], submitted + 1, already)
        case Unheard => RunEnd(Create(now, s), Killed, submitted, already)
        case Refused => RunEnd(now, Aborted, submitted, already)
      }
  }

  class CurioServer {
    var curio: Curio

    constructor (deals: map<string, Deal>)
      ensures curio == Curio(deals, [])
    {
      curio := Curio(deals, []);
    }

    /** Status of the deal, or `None` for a 401 or 404; `failed` for any other error. */
    method GetDealStatusOrNone(identifier: string, turn: Turn) returns (failed: bool, status: Wrappers.Option<Status>)
      modifies this
      ensures curio == Progress(old(curio), turn.progress)
      ensures failed <==> turn.lookup == LookupFails
      ensures status == if turn.lookup == Answered && identifier in curio.deals
                        then Wrappers.Some(curio.deals[identifier].status) else Wrappers.None
    {
      curio := Progress(curio, turn.progress);
      failed := turn.lookup == LookupFails;
      status := Wrappers.None;
      if turn.lookup == Answered && identifier in curio.deals {
        status := Wrappers.Some(curio.deals[identifier].status);
      }
    }

    method Post(s: Submission, turn: Turn)
      modifies this
      ensures curio == if turn.post == Refused then old(curio) else Create(old(curio), s)
    {
      if turn.post != Refused {
        curio := Create(curio, s);
      }
    }
  }

  method SubmitPieces(server: CurioServer, pieces: seq<Submission>, turns: seq<Turn>)
    returns (ending: Ending, submitted: nat, alreadySubmitted: nat)
    modifies server
    ensures RunEnd(server.curio, ending, submitted, alreadySubmitted) == Run(old(server.curio), pieces, turns, 0, 0)
  {
    submitted, alreadySubmitted := 0, 0;
    for i := 0 to |pieces|
      invariant i <= |turns|
      invariant Run(server.curio, pieces[i..], turns[i..], submitted, alreadySubmitted)
             == Run(old(server.curio), pieces, turns, 0, 0)
    {
      if i == |turns| {
        return Killed, submitted, alreadySubmitted;
      }
      var piece, turn := pieces[i], turns[i];
      assert pieces[i..][1..] == pieces[i + 1..] && turns[i..][1..] == turns[i + 1..];
      var failed, existing := server.GetDealStatusOrNone(piece.identifier, turn);
      if failed {
        return Aborted, submitted, alreadySubmitted;
      }
      if existing.Some? {
        if existing.value == Failed {
          return Aborted, submitted, alreadySubmitted;
        }
        if existing.value == Unreadable {
          return Aborted, submitted, alreadySubmitted;
        }
        alreadySubmitted := alreadySubmitted + 1;
        continue;
      }
      server.Post(piece, turn);
      match turn.post {
        case Created =>
        case Unheard => return Killed, submitted, alreadySubmitted;
        case Refused => return Aborted, submitted, alreadySubmitted;
      }
      submitted := submitted + 1;
    }
    return Completed, submitted, alreadySubmitted;
  }

  // ---- safety over runs ----

  /** Every posted deal is there, and deals are filed under their own identifiers. */
  ghost predicate Filed(c: Curio, hash: SeedHash) {
    && (forall id :: id in c.posts ==> id in c.deals)
    && (forall id :: id in c.deals ==> Identifier(hash, c.deals[id].cidV2) == id)
  }

  ghost predicate OwnIdentifiers(pieces: seq<Submission>, hash: SeedHash) {
    forall i :: 0 <= i < |pieces| ==> pieces[i].identifier == Identifier(hash, pieces[i].cidV2)
  }

  /** Some turn that the run reaches answers 401 for an identifier posted before, and its post is not refused. */
  predicate Reposts(c: Curio, pieces: seq<Submission>, turns: seq<Turn>)
    decreases |pieces|
  {
    && pieces != [] && turns != []
    && var s, t := pieces[0], turns[0];
    var now := Progress(c, t.progress);
    && t.lookup != LookupFails
    && if t.lookup == Answered && s.identifier in now.deals
       then now.deals[s.identifier].status == Live && Reposts(now, pieces[1..], turns[1..])
       else || (t.lookup == Unauthorized && s.identifier in now.posts && t.post != Refused)
            || (t.post == Created && Reposts(Create(now, s), pieces[1..], turns[1..]))
  }

  lemma ProgressKeepsFiled(c: Curio, hash: SeedHash, progress: map<string, Status>)
    requires Filed(c, hash)
    ensures Filed(Progress(c, progress), hash)
    ensures Progress(c, progress).deals.Keys == c.deals.Keys
  {
    assert forall id :: id in Progress(c, progress).deals <==> id in c.deals;
  }

  lemma CreateKeepsFiled(c: Curio, hash: SeedHash, s: Submission)
    requires Filed(c, hash) && s.identifier == Identifier(hash, s.cidV2)
    ensures Filed(Create(c, s), hash)
    ensures Distinct(Create(c, s).posts) <==> Distinct(c.posts) && s.identifier !in c.posts
  {
    DistinctConcat(c.posts, [s.identifier]);
    assert s.identifier in c.posts <==> s.identifier in Elements(c.posts);
    assert Elements([s.identifier]) == {s.identifier};
    var d := Create(c, s);
    forall id | id in d.posts
      ensures id in d.deals
    {
      assert id in c.posts || id == s.identifier;
    }
  }

  lemma NotPosted(c: Curio, hash: SeedHash, id: string)
    requires Filed(c, hash) && id !in c.deals
    ensures id !in c.posts
  {
  }

  /** A run, interrupted anywhere, loses no deal, and repeats a post exactly when it reaches a turn that reposts. */
  lemma {:induction false} RunRepostsExactlyWhen(c: Curio, hash: SeedHash, pieces: seq<Submission>, turns: seq<Turn>,
                                                 submitted: nat, already: nat)
    requires Filed(c, hash) && OwnIdentifiers(pieces, hash)
    ensures var end := Run(c, pieces, turns, submitted, already).curio;
            && Filed(end, hash) && c.posts <= end.posts && c.deals.Keys <= end.deals.Keys
            && (Distinct(end.posts) <==> Distinct(c.posts) && !Reposts(c, pieces, turns))
    decreases |pieces|
  {
    hide Filed, Distinct, Identifier;
    if pieces != [] && turns != [] {
      var s, t := pieces[0], turns[0];
      var now := Progress(c, t.progress);
      ProgressKeepsFiled(c, hash, t.progress);
      if t.lookup == LookupFails {
      } else if t.lookup == Answered && s.identifier in now.deals {
        RunRepostsExactlyWhen(now, hash, pieces[1..], turns[1..], submitted, already + 1);
      } else {
        if s.identifier !in now.deals {
          NotPosted(now, hash, s.identifier);
        }
        CreateKeepsFiled(now, hash, s);
        RunRepostsExactlyWhen(Create(now, s), hash, pieces[1..], turns[1..], submitted + 1, already);
      }
    }
  }

  datatype RunInput = RunInput(pieces: seq<Submission>, turns: seq<Turn>)

  function Runs(c: Curio, inputs: seq<RunInput>): Curio {
    if inputs == [] then c
    else
      var before := Runs(c, inputs[..|inputs| - 1]);
      Run(before, inputs[|inputs| - 1].pieces, inputs[|inputs| - 1].turns, 0, 0).curio
  }

  /** Some run reposts. */
  predicate RepostsIn(c: Curio, inputs: seq<RunInput>) {
    && inputs != []
    && var before, last := inputs[..|inputs| - 1], inputs[|inputs| - 1];
    RepostsIn(c, before) || Reposts(Runs(c, before), last.pieces, last.turns)
  }

  /** Over any sequence of runs, with any pieces, each ending anywhere, no deal is lost, and an identifier is posted
      twice exactly when some turn that is reached answers 401 for an identifier posted before and its post is not
      refused. */
  lemma {:induction false} RerunsRepostExactlyWhen(c: Curio, hash: SeedHash, inputs: seq<RunInput>)
    requires Filed(c, hash)
    requires forall i :: 0 <= i < |inputs| ==> OwnIdentifiers(inputs[i].pieces, hash)
    ensures Filed(Runs(c, inputs), hash)
    ensures c.posts <= Runs(c, inputs).posts && c.deals.Keys <= Runs(c, inputs).deals.Keys
    ensures Distinct(Runs(c, inputs).posts) <==> Distinct(c.posts) && !RepostsIn(c, inputs)
  {
    if inputs != [] {
      var before, last := inputs[..|inputs| - 1], inputs[|inputs| - 1];
      RerunsRepostExactlyWhen(c, hash, before);
      RunRepostsExactlyWhen(Runs(c, before), hash, last.pieces, last.turns, 0, 0);
    }
  }

  /** Curio's answers reflect its deals: a turn that is reached is answered with 401 only for an identifier without a
      deal. */
  predicate Truthful(c: Curio, pieces: seq<Submission>, turns: seq<Turn>)
    decreases |pieces|
  {
    pieces != [] && turns != [] ==>
      var s, t := pieces[0], turns[0];
      var now := Progress(c, t.progress);
      && (t.lookup == Unauthorized ==> s.identifier !in now.deals)
      && (t.lookup == Answered && s.identifier in now.deals && now.deals[s.identifier].status == Live ==>
            Truthful(now, pieces[1..], turns[1..]))
      && (t.lookup != LookupFails && s.identifier !in now.deals && t.post == Created ==>
            Truthful(Create(now, s), pieces[1..], turns[1..]))
  }

  predicate TruthfulIn(c: Curio, inputs: seq<RunInput>) {
    inputs != [] ==>
      var before, last := inputs[..|inputs| - 1], inputs[|inputs| - 1];
      TruthfulIn(c, before) && Truthful(Runs(c, before), last.pieces, last.turns)
  }

  lemma {:induction false} TruthfulNeverReposts(c: Curio, hash: SeedHash, pieces: seq<Submission>, turns: seq<Turn>)
    requires Filed(c, hash) && OwnIdentifiers(pieces, hash) && Truthful(c, pieces, turns)
    ensures !Reposts(c, pieces, turns)
    decreases |pieces|
  {
    hide Filed, Identifier;
    if pieces != [] && turns != [] {
      var s, t := pieces[0], turns[0];
      var now := Progress(c, t.progress);
      ProgressKeepsFiled(c, hash, t.progress);
      if s.identifier in now.deals {
        if t.lookup == Answered && now.deals[s.identifier].status == Live {
          TruthfulNeverReposts(now, hash, pieces[1..], turns[1..]);
        }
      } else {
        NotPosted(now, hash, s.identifier);
        if t.lookup != LookupFails && t.post == Created {
          CreateKeepsFiled(now, hash, s);
          TruthfulNeverReposts(Create(now, s), hash, pieces[1..], turns[1..]);
        }
      }
    }
  }

  /** Safe to re-run: when Curio's answers reflect its deals, no sequence of runs posts an identifier twice. */
  lemma {:induction false} RerunsPostOnce(c: Curio, hash: SeedHash, inputs: seq<RunInput>)
    requires Filed(c, hash) && Distinct(c.posts) && TruthfulIn(c, inputs)
    requires forall i :: 0 <= i < |inputs| ==> OwnIdentifiers(inputs[i].pieces, hash)
    ensures Filed(Runs(c, inputs), hash) && Distinct(Runs(c, inputs).posts)
    ensures c.posts <= Runs(c, inputs).posts && c.deals.Keys <= Runs(c, inputs).deals.Keys
  {
    if inputs != [] {
      var before, last := inputs[..|inputs| - 1], inputs[|inputs| - 1];
      RerunsPostOnce(c, hash, before);
      TruthfulNeverReposts(Runs(c, before), hash, last.pieces, last.turns);
      RunRepostsExactlyWhen(Runs(c, before), hash, last.pieces, last.turns, 0, 0);
    }
  }

  // ---- the counters ----

  /** However a run ends: `submitted` counts the posts that the client heard of, which are all but one that it was
      killed after, and together with `alreadySubmitted` the pieces it got through, which are all when it completes and
      one for each turn when the turns run out. */
  lemma {:induction false} CountersCount(c: Curio, pieces: seq<Submission>, turns: seq<Turn>, submitted: nat,
                                         already: nat)
    ensures var end := Run(c, pieces, turns, submitted, already);
            var posted, heard := |end.curio.posts| - |c.posts|, end.submitted - submitted;
            var handled := heard + end.alreadySubmitted - already;
            && heard >= 0 && end.alreadySubmitted >= already && handled <= |pieces| && handled <= |turns|
            && (posted == heard || (posted == heard + 1 && end.ending == Killed))
            && (end.ending == Completed <==> handled == |pieces|)
            && (end.ending == Killed && posted == heard ==> handled == |turns|)
    decreases |pieces|
  {
    if pieces != [] && turns != [] {
      var s, t := pieces[0], turns[0];
      var now := Progress(c, t.progress);
      if t.lookup == Answered && s.identifier in now.deals {
        CountersCount(now, pieces[1..], turns[1..], submitted, already + 1);
      } else {
        CountersCount(Create(now, s), pieces[1..], turns[1..], submitted + 1, already);
      }
    }
  }

  // ---- what a completed run leaves ----

  /** The PieceCIDs v2 of a set of strings have identifiers of their own. */
  ghost predicate InjectiveOn(hash: SeedHash, cids: set<string>) {
    forall a, b :: a in cids && b in cids && Identifier(hash, a) == Identifier(hash, b) ==> a == b
  }

  /** The used part of the seed hash is an 80-bit number, and tells the strings apart. */
  ghost predicate HashSeparates(hash: SeedHash, cids: set<string>) {
    && (forall a :: a in cids ==> hash(a) < CurioIdentifier.LIMIT)
    && (forall a, b :: a in cids && b in cids && hash(a) == hash(b) ==> a == b)
  }

  /** An identifier spells out its hash, so that strings of different hashes have different identifiers. */
  lemma IdentifiersSeparate(hash: SeedHash, cids: set<string>)
    requires HashSeparates(hash, cids)
    ensures InjectiveOn(hash, cids)
  {
    hide CurioIdentifier.Ulid, CurioIdentifier.Entropy;
    forall a, b | a in cids && b in cids && Identifier(hash, a) == Identifier(hash, b)
      ensures a == b
    {
      CurioIdentifier.UlidRoundTrip(hash(a));
      CurioIdentifier.UlidRoundTrip(hash(b));
    }
  }

  ghost predicate Held(c: Curio, pieces: seq<Submission>) {
    forall i :: 0 <= i < |pieces| ==>
      && pieces[i].identifier in c.deals
      && c.deals[pieces[i].identifier].cidV2 == pieces[i].cidV2
  }

  ghost predicate Known(cids: set<string>, c: Curio, pieces: seq<Submission>) {
    && (forall id :: id in c.deals ==> c.deals[id].cidV2 in cids)
    && (forall i :: 0 <= i < |pieces| ==> pieces[i].cidV2 in cids)
  }

  lemma ProgressKeepsHeld(c: Curio, progress: map<string, Status>, done: seq<Submission>, pieces: seq<Submission>,
                          cids: set<string>)
    requires Held(c, done) && Known(cids, c, pieces)
    ensures Held(Progress(c, progress), done) && Known(cids, Progress(c, progress), pieces)
  {
  }

  lemma FoundIsHeld(c: Curio, hash: SeedHash, done: seq<Submission>, s: Submission, pieces: seq<Submission>,
                    cids: set<string>)
    requires Filed(c, hash) && Held(c, done) && Known(cids, c, pieces) && InjectiveOn(hash, cids)
    requires s in pieces && s.identifier == Identifier(hash, s.cidV2) && s.identifier in c.deals
    ensures Held(c, done + [s])
  {
    assert s.cidV2 in cids && c.deals[s.identifier].cidV2 in cids;
  }

  lemma CreatedIsHeld(c: Curio, hash: SeedHash, done: seq<Submission>, s: Submission, pieces: seq<Submission>,
                      cids: set<string>)
    requires Held(c, done) && Known(cids, c, pieces) && InjectiveOn(hash, cids)
    requires s in pieces && s.identifier == Identifier(hash, s.cidV2) && OwnIdentifiers(done, hash)
    ensures Held(Create(c, s), done + [s]) && Known(cids, Create(c, s), pieces)
  {
    hide Identifier;
    assert s.cidV2 in cids;
    forall i | 0 <= i < |done|
      ensures done[i].identifier in Create(c, s).deals && Create(c, s).deals[done[i].identifier].cidV2 == done[i].cidV2
    {
      assert c.deals[done[i].identifier].cidV2 in cids;
    }
  }

  lemma CompletedGoesOn(c: Curio, pieces: seq<Submission>, turns: seq<Turn>, submitted: nat, already: nat)
    requires pieces != [] && Run(c, pieces, turns, submitted, already).ending == Completed
    ensures turns != []
    ensures var s, now := pieces[0], Progress(c, turns[0].progress);
            Run(c, pieces, turns, submitted, already) ==
            (if turns[0].lookup == Answered && s.identifier in now.deals
             then Run(now, pieces[1..], turns[1..], submitted, already + 1)
             else Run(Create(now, s), pieces[1..], turns[1..], submitted + 1, already))
  {
  }

  lemma FirstIsOwn(done: seq<Submission>, pieces: seq<Submission>, hash: SeedHash)
    requires OwnIdentifiers(done + pieces, hash) && pieces != []
    ensures pieces[0].identifier == Identifier(hash, pieces[0].cidV2) && OwnIdentifiers(done, hash)
  {
    hide Identifier;
    var all := done + pieces;
    assert all[|done|] == pieces[0] && forall i :: 0 <= i < |done| ==> all[i] == done[i];
  }

  lemma Regroup(done: seq<Submission>, pieces: seq<Submission>)
    requires pieces != []
    ensures done + pieces == (done + [pieces[0]]) + pieces[1..] && (done + pieces)[|done|] == pieces[0]
  {
  }

  /** What a run goes on from, with the pieces that are done and those still to come. */
  ghost predicate Ready(c: Curio, hash: SeedHash, done: seq<Submission>, pieces: seq<Submission>, cids: set<string>) {
    && Filed(c, hash) && OwnIdentifiers(done + pieces, hash)
    && InjectiveOn(hash, cids) && Known(cids, c, done + pieces) && Held(c, done)
  }

  lemma NextIsReady(c: Curio, hash: SeedHash, done: seq<Submission>, pieces: seq<Submission>, t: Turn,
                    cids: set<string>)
    requires Ready(c, hash, done, pieces, cids) && pieces != []
    ensures var s, now := pieces[0], Progress(c, t.progress);
            && (s.identifier in now.deals ==> Ready(now, hash, done + [s], pieces[1..], cids))
            && Ready(Create(now, s), hash, done + [s], pieces[1..], cids)
  {
    hide Filed, Held, Known, InjectiveOn, OwnIdentifiers, Progress, Create, Identifier;
    var s, now, all := pieces[0], Progress(c, t.progress), done + pieces;
    Regroup(done, pieces);
    FirstIsOwn(done, pieces, hash);
    ProgressKeepsFiled(c, hash, t.progress);
    ProgressKeepsHeld(c, t.progress, done, all, cids);
    if s.identifier in now.deals {
      FoundIsHeld(now, hash, done, s, all, cids);
    }
    CreateKeepsFiled(now, hash, s);
    CreatedIsHeld(now, hash, done, s, all, cids);
  }

  lemma HeldRegrouped(c: Curio, done: seq<Submission>, pieces: seq<Submission>)
    requires pieces != [] && Held(c, done + [pieces[0]]) && Held(c, pieces[1..])
    ensures Held(c, done) && Held(c, pieces)
  {
    assert (done + [pieces[0]])[|done|] == pieces[0];
    assert forall i :: 0 <= i < |done| ==> (done + [pieces[0]])[i] == done[i];
    assert forall i :: 0 < i < |pieces| ==> pieces[i] == pieces[1..][i - 1];
  }

  lemma {:induction false} RunHolds(c: Curio, hash: SeedHash, done: seq<Submission>, pieces: seq<Submission>,
                                    turns: seq<Turn>, submitted: nat, already: nat, cids: set<string>)
    requires Ready(c, hash, done, pieces, cids)
    requires Run(c, pieces, turns, submitted, already).ending == Completed
    ensures var end := Run(c, pieces, turns, submitted, already);
            && end.submitted + end.alreadySubmitted == submitted + already + |pieces|
            && Held(end.curio, done) && Held(end.curio, pieces)
    decreases |pieces|
  {
    if pieces != [] {
      hide Run, Ready, Held, Progress, Create;
      CompletedGoesOn(c, pieces, turns, submitted, already);
      var s, t, rest := pieces[0], turns[0], pieces[1..];
      var now := Progress(c, t.progress);
      NextIsReady(c, hash, done, pieces, t, cids);
      var found := t.lookup == Answered && s.identifier in now.deals;
      RunHolds(if found then now else Create(now, s), hash, done + [s], rest, turns[1..],
               if found then submitted else submitted + 1, if found then already + 1 else already, cids);
      HeldRegrouped(Run(c, pieces, turns, submitted, already).curio, done, pieces);
    }
  }

  /** A completed run accounts for every piece, and Curio holds a deal of that very piece under each identifier. */
  lemma CompletedRunHoldsAll(c: Curio, hash: SeedHash, pieces: seq<Submission>, turns: seq<Turn>, cids: set<string>)
    requires Filed(c, hash) && OwnIdentifiers(pieces, hash)
    requires InjectiveOn(hash, cids) && Known(cids, c, pieces)
    requires Run(c, pieces, turns, 0, 0).ending == Completed
    ensures var end := Run(c, pieces, turns, 0, 0);
            end.submitted + end.alreadySubmitted == |pieces| && Held(end.curio, pieces)
  {
    assert [] + pieces == pieces;
    RunHolds(c, hash, [], pieces, turns, 0, 0, cids);
  }

  /** From a manifest to Curio: after a completed run over an accepted manifest, each of its rows that was not accepted
      yet has one deal in Curio, of its own PieceCID v2 and under an identifier of its own, and the counters add up to
      them. */
  lemma EachPendingRowHasItsDeal(decode: Multibase, manifest: seq<ManifestPiece>, hash: SeedHash, accepted: set<nat>,
                                 c: Curio, turns: seq<Turn>, cids: set<string>)
    requires PieceSetOf(decode, manifest).Ok? && DecodersAgree(decode, manifest)
    requires SubmissionsFor(Metadata(manifest), hash, PieceSetOf(decode, manifest).value.rows, accepted).Ok?
    requires var rows := PieceSetOf(decode, manifest).value.rows;
             var pieces := SubmissionsFor(Metadata(manifest), hash, rows, accepted).value;
             && Filed(c, hash) && Known(cids, c, pieces) && HashSeparates(hash, cids)
             && Run(c, pieces, turns, 0, 0).ending == Completed
    ensures var rows := PieceSetOf(decode, manifest).value.rows;
            var pieces := SubmissionsFor(Metadata(manifest), hash, rows, accepted).value;
            var pending, end := Pending(rows, accepted), Run(c, pieces, turns, 0, 0);
            && |pieces| == |pending| == end.submitted + end.alreadySubmitted
            && (forall i :: 0 <= i < |pieces| ==> pieces[i].row == pending[i]) && Held(end.curio, pieces)
            && (forall i, j :: 0 <= i < j < |pieces| ==> pieces[i].identifier != pieces[j].identifier)
  {
    hide PieceSetOf, SubmissionsFor, Metadata, Pending, Run, Filed, Held, Identifier, InjectiveOn, DecodersAgree,
         HashSeparates;
    var pieces := SubmissionsFor(Metadata(manifest), hash, PieceSetOf(decode, manifest).value.rows, accepted).value;
    SubmissionsAreDistinct(decode, manifest, hash, accepted);
    IdentifiersSeparate(hash, cids);
    CompletedRunHoldsAll(c, hash, pieces, turns, cids);
    OwnIdentifiersDiffer(pieces, hash, cids);
  }

  lemma OwnIdentifiersDiffer(pieces: seq<Submission>, hash: SeedHash, cids: set<string>)
    requires OwnIdentifiers(pieces, hash) && InjectiveOn(hash, cids)
    requires forall i :: 0 <= i < |pieces| ==> pieces[i].cidV2 in cids
    requires forall i, j :: 0 <= i < j < |pieces| ==> pieces[i].cidV2 != pieces[j].cidV2
    ensures forall i, j :: 0 <= i < j < |pieces| ==> pieces[i].identifier != pieces[j].identifier
  {
    hide Identifier;
  }
}
