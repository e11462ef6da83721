/** The video queue in the assets table: video-processing.service.ts and asset-files.ts. */
module VideoQueue {
  import opened Wrappers

  type AssetId = int

  datatype Status = PendingUpload | Processing | Ready | Rejected

  /** startedAt is the fencing token: the time of the claim that holds the row. */
  datatype Asset = Asset(status: Status, startedAt: Option<int>, attempts: nat, createdAt: int)

  type Assets = map<AssetId, Asset>

  const STALE_AFTER_MS := 15 * 60 * 1000
  const MAX_ATTEMPTS := 3

  predicate Claimable(row: Asset, now: int) {
    row.status == Processing && (row.startedAt.None? || row.startedAt.value < now - STALE_AFTER_MS)
  }

  predicate Candidate(assets: Assets, id: AssetId, exclude: set<AssetId>, now: int) {
    id in assets && Claimable(assets[id], now) && id !in exclude
  }

  /** The oldest candidate; the database picks among equally old ones. */
  predicate IsNext(assets: Assets, id: AssetId, exclude: set<AssetId>, now: int) {
    && Candidate(assets, id, exclude, now)
    && forall other :: other in assets && Candidate(assets, other, exclude, now) ==>
        assets[id].createdAt <= assets[other].createdAt
  }

  function Claimed(row: Asset, now: int): Asset { row.(startedAt := Some(now), attempts := row.attempts + 1) }

  /** stillClaimed: nobody has taken the row over. */
  predicate StillClaimed(assets: Assets, id: AssetId, token: int) {
    id in assets && assets[id].status == Processing && assets[id].startedAt == Some(token)
  }

  function WithReady(assets: Assets, id: AssetId, token: int): Assets {
    if StillClaimed(assets, id, token) then assets[id := assets[id].(status := Ready)] else assets
  }

  function WithReleased(assets: Assets, id: AssetId, token: int): Assets {
    if StillClaimed(assets, id, token) then assets[id := assets[id].(startedAt := None)] else assets
  }

  /** markRejected looks at the status only. */
  function WithRejected(assets: Assets, id: AssetId): Assets {
    if id in assets && assets[id].status == Processing then assets[id := assets[id].(status := Rejected)] else assets
  }

  /** Which asset a claim takes, and what it stamps: the oldest one in processing that nobody holds or
      whose holder has been silent for more than 15 minutes. */
  lemma NextExactly(assets: Assets, id: AssetId, exclude: set<AssetId>, now: int)
    ensures var free := set other | && other in assets && other !in exclude && assets[other].status == Processing
                                    && (match assets[other].startedAt
                                        case None => true
                                        case Some(at) => now - at > 900_000);
            IsNext(assets, id, exclude, now)
            <==> id in free && forall other :: other in free ==> assets[id].createdAt <= assets[other].createdAt
    ensures id in assets ==>
              var row := Claimed(assets[id], now);
              && row.startedAt == Some(now) && row.attempts == assets[id].attempts + 1
              && row.status == assets[id].status && row.createdAt == assets[id].createdAt
  {
  }

  /** What the three closing writes do: only the worker that still holds the asset makes it READY or
      frees it, anyone rejects it while it is in processing, and no other asset changes. */
  lemma WritesExactly(assets: Assets, id: AssetId, token: int)
    requires id in assets
    ensures var row := assets[id];
            var held := row.status == Processing && row.startedAt == Some(token);
            && (held ==>
                  && WithReady(assets, id, token)
                     == assets[id := Asset(Ready, Some(token), row.attempts, row.createdAt)]
                  && WithReleased(assets, id, token)
                     == assets[id := Asset(Processing, None, row.attempts, row.createdAt)])
            && (!held ==> WithReady(assets, id, token) == assets && WithReleased(assets, id, token) == assets)
            && WithRejected(assets, id)
               == (if row.status == Processing
                   then assets[id := Asset(Rejected, row.startedAt, row.attempts, row.createdAt)] else assets)
  {
  }

  // ---------------------------------------------------------------- one drain

  /** How the work on an asset ends: the media is unacceptable, something failed for now, or it worked. */
  datatype Work = Unacceptable | FailsForNow | Works

  datatype Outcome = BecameReady | BecameRejected | Retried

  function OutcomeOf(attempts: nat, work: Work): Outcome {
    if attempts > MAX_ATTEMPTS then BecameRejected
    else match work
         case Unacceptable => BecameRejected
         case FailsForNow => Retried
         case Works => BecameReady
  }

  lemma OutcomeExactly(attempts: nat, work: Work)
    ensures OutcomeOf(attempts, work) == BecameRejected <==> attempts > 3 || work == Unacceptable
    ensures OutcomeOf(attempts, work) == Retried <==> attempts <= 3 && work == FailsForNow
    ensures OutcomeOf(attempts, work) == BecameReady <==> attempts <= 3 && work == Works
  {
  }

  /** A claim at that time and its processing, when no other pod interferes. */
  function Processed(row: Asset, work: Work, now: int): Asset {
    match OutcomeOf(row.attempts + 1, work)
    case BecameReady => Claimed(row, now).(status := Ready)
    case BecameRejected => Claimed(row, now).(status := Rejected)
    case Retried => Claimed(row, now).(startedAt := None)
  }

  ghost predicate WasProcessed(before: Asset, after: Asset, work: Work) {
    exists now :: Claimable(before, now) && after == Processed(before, work, now)
  }

  /** An asset was processed at most once, and is noted as failed exactly when it was to be retried. */
  ghost predicate DrainedRow(before: Asset, after: Asset, failed: bool, work: Work) {
    if failed then OutcomeOf(before.attempts + 1, work) == Retried && WasProcessed(before, after, work)
    else
      || after == before
      || (OutcomeOf(before.attempts + 1, work) != Retried && WasProcessed(before, after, work))
  }

  /** The asset was claimed once more and ended as its work did: the fourth claim rejects it whatever
      comes of it, and so does unacceptable media; a failure for now frees it; the rest is READY. */
  ghost predicate EndedAs(before: Asset, after: Asset, failed: bool, work: Work) {
    && after.attempts == before.attempts + 1
    && (before.attempts >= 3 || work == Unacceptable ==> !failed && after.status == Rejected)
    && (before.attempts < 3 && work == FailsForNow ==> failed && after.status == Processing && after.startedAt == None)
    && (before.attempts < 3 && work == Works ==> !failed && after.status == Ready)
  }

  function Waiting(assets: Assets, failed: set<AssetId>): set<AssetId> {
    set id | id in assets && assets[id].status == Processing && id !in failed
  }

  /** The assets that got that status since start. */
  function Newly(start: Assets, assets: Assets, status: Status): set<AssetId> {
    set id | id in assets && id in start && assets[id].status == status != start[id].status
  }

  class Service {
    var assets: Assets
    var stopping: bool

    constructor ()
      ensures assets == map[] && !stopping
    {
      assets, stopping := map[], false;
    }

    /** Take the oldest candidate and stamp it. */
    method Claim(exclude: set<AssetId>, now: int) returns (claimed: Option<AssetId>)
      modifies this`assets
      ensures claimed.None? ==>
                assets == old(assets) && forall id :: id in assets ==> !Candidate(assets, id, exclude, now)
      ensures claimed.Some? ==>
                && IsNext(old(assets), claimed.value, exclude, now)
                && assets == old(assets)[claimed.value := Claimed(old(assets)[claimed.value], now)]
    {
      var candidates := set id | id in assets && Candidate(assets, id, exclude, now);
      if candidates == {} {
        assert forall id :: id in assets && Candidate(assets, id, exclude, now) ==> id in candidates;
        return None;
      }
      assert (forall id :: id !in candidates) ==> candidates == {};
      var next :| next in candidates;
      var rest := candidates - {next};
      while rest != {}
        invariant assets == old(assets)
        invariant next in candidates && rest <= candidates
        invariant forall id :: id in candidates - rest ==> assets[next].createdAt <= assets[id].createdAt
        decreases |rest|
      {
        assert (forall id :: id !in rest) ==> rest == {};
        var id :| id in rest;
        if assets[id].createdAt < assets[next].createdAt {
          next := id;
        }
        rest := rest - {id};
      }
      assets := assets[next := Claimed(assets[next], now)];
      claimed := Some(next);
    }

    method WriteReady(id: AssetId, token: int) returns (ready: bool)
      modifies this`assets
      ensures ready == StillClaimed(old(assets), id, token)
      ensures assets == WithReady(old(assets), id, token)
    {
      ready := StillClaimed(assets, id, token);
      assets := WithReady(assets, id, token);
    }

    /** process, with the work's end given by the caller. */
    method Process(id: AssetId, token: int, attempts: nat, work: Work) returns (outcome: Outcome)
      modifies this`assets
      ensures attempts > 3 || work == Unacceptable ==>
          outcome == BecameRejected && assets == WithRejected(old(assets), id)
      ensures attempts <= 3 && work == FailsForNow ==>
          outcome == Retried && assets == WithReleased(old(assets), id, token)
      ensures attempts <= 3 && work == Works ==>
                && assets == WithReady(old(assets), id, token)
                && outcome == if StillClaimed(old(assets), id, token) then BecameReady else Retried
    {
      if attempts > MAX_ATTEMPTS || work == Unacceptable {
        assets := WithRejected(assets, id);
        return BecameRejected;
      }
      if work == FailsForNow {
        assets := WithReleased(assets, id, token);
        return Retried;
      }
      var ready := WriteReady(id, token);
      outcome := if ready then BecameReady else Retried;
    }

    /** Drain the queue alone: clock gives the reading of every claim, work how each asset's work ends.
        Unless the service is stopping, nothing claimable is left except what failed for now, and
        every asset that could be claimed at first was processed as its work ended. */
    method DrainOnce(clock: nat -> int, work: AssetId -> Work)
      returns (ready: nat, rejected: nat, retried: nat, ghost failed: set<AssetId>)
      modifies this`assets
      ensures Drained(old(assets), assets, failed, work, ready, rejected, retried)
      ensures !stopping ==> forall id :: id in assets ==>
          !Candidate(assets, id, failed, clock(ready + rejected + retried))
      ensures !stopping ==>
                forall id :: id in old(assets) && Claimable(old(assets)[id], clock(ready + rejected + retried)) ==>
                  id in assets && EndedAs(old(assets)[id], assets[id], id in failed, work(id))
    {
      ready, rejected, retried := 0, 0, 0;
      failed := {};
      var exclude := {};
      hide Drained, StillClaimed, WithReady, WithReleased, WithRejected, Processed, Claimed, Claimable, Waiting,
          EndedAs, OutcomeOf;
      NothingDone(assets, work);
      while !stopping
        invariant stopping == old(stopping) && exclude == failed
        invariant Drained(old(assets), assets, failed, work, ready, rejected, retried)
        decreases |Waiting(assets, exclude)|
      {
        ghost var before := assets;
        var now := clock(ready + rejected + retried);
        var claimed := Claim(exclude, now);
        if claimed.None? {
          break;
        }
        var id := claimed.value;
        OutcomeExactly(assets[id].attempts, work(id));
        var outcome := Process(id, now, assets[id].attempts, work(id));
        DrainRound(old(assets), before, failed, work, ready, rejected, retried, id, now);
        match outcome
        case BecameReady => ready := ready + 1;
        case BecameRejected => rejected := rejected + 1;
        case Retried =>
          retried := retried + 1;
          exclude, failed := exclude + {id}, failed + {id};
      }
      if !stopping {
        ClaimableAreProcessed(old(assets), assets, failed, work, ready, rejected, retried,
                              clock(ready + rejected + retried));
      }
    }
  }

  /** Every asset was processed at most once, and what waits was not touched. */
  ghost predicate RowsDrained(start: Assets, assets: Assets, failed: set<AssetId>, work: AssetId -> Work) {
    && failed <= start.Keys == assets.Keys
    && (forall id :: id in assets ==> DrainedRow(start[id], assets[id], id in failed, work(id)))
    && (forall id :: id in Waiting(assets, failed) ==> assets[id] == start[id])
  }

  /** The counts are those of the outcomes, and each round used up one waiting asset. */
  ghost predicate OutcomesCounted(start: Assets, assets: Assets, failed: set<AssetId>,
                                  ready: nat, rejected: nat, retried: nat)
  {
    && ready == |Newly(start, assets, Ready)|
    && rejected == |Newly(start, assets, Rejected)|
    && retried == |failed|
    && ready + rejected + retried + |Waiting(assets, failed)| == |Waiting(start, {})|
  }

  /** What a drain has done so far. */
  ghost predicate Drained(start: Assets, assets: Assets, failed: set<AssetId>, work: AssetId -> Work,
                          ready: nat, rejected: nat, retried: nat)
  {
    RowsDrained(start, assets, failed, work) && OutcomesCounted(start, assets, failed, ready, rejected, retried)
  }

  /** What a drain did to each asset, from its work and its attempts alone. */
  lemma DrainedExactly(start: Assets, assets: Assets, failed: set<AssetId>, work: AssetId -> Work,
                       ready: nat, rejected: nat, retried: nat)
    requires Drained(start, assets, failed, work, ready, rejected, retried)
    ensures start.Keys == assets.Keys && failed <= start.Keys
    ensures forall id :: id in assets && (assets[id] != start[id] || id in failed) ==>
              start[id].status == Processing && EndedAs(start[id], assets[id], id in failed, work(id))
    ensures ready == |set id | id in assets && assets[id].status == Ready && start[id].status != Ready|
    ensures rejected == |set id | id in assets && assets[id].status == Rejected && start[id].status != Rejected|
    ensures retried == |failed|
  {
    forall id | id in assets && (assets[id] != start[id] || id in failed)
      ensures start[id].status == Processing && EndedAs(start[id], assets[id], id in failed, work(id))
    {
      assert DrainedRow(start[id], assets[id], id in failed, work(id));
    }
    assert Newly(start, assets, Ready)
        == set id | id in assets && assets[id].status == Ready && start[id].status != Ready;
    assert Newly(start, assets, Rejected)
        == set id | id in assets && assets[id].status == Rejected && start[id].status != Rejected;
  }

  lemma ClaimableAreProcessed(start: Assets, assets: Assets, failed: set<AssetId>, work: AssetId -> Work,
                              ready: nat, rejected: nat, retried: nat, now: int)
    requires Drained(start, assets, failed, work, ready, rejected, retried)
    requires forall id :: id in assets ==> !Candidate(assets, id, failed, now)
    ensures forall id :: id in start && Claimable(start[id], now) ==>
              id in assets && EndedAs(start[id], assets[id], id in failed, work(id))
  {
    DrainedExactly(start, assets, failed, work, ready, rejected, retried);
    hide EndedAs;
  }

  lemma NothingDone(assets: Assets, work: AssetId -> Work)
    ensures Drained(assets, assets, {}, work, 0, 0, 0)
  {
    assert Newly(assets, assets, Ready) == {} && Newly(assets, assets, Rejected) == {};
  }

  /** Without interference a claim and its processing come to Processed. */
  lemma ProcessedAlone(assets: Assets, id: AssetId, work: Work, now: int)
    requires id in assets && Claimable(assets[id], now)
    ensures var held := assets[id := Claimed(assets[id], now)];
            && StillClaimed(held, id, now)
            && held[id].attempts == assets[id].attempts + 1
            && assets[id := Processed(assets[id], work, now)]
               == match OutcomeOf(assets[id].attempts + 1, work)
                  case BecameReady => WithReady(held, id, now)
                  case BecameRejected => WithRejected(held, id)
                  case Retried => WithReleased(held, id, now)
  {
  }

  lemma DrainRound(start: Assets, assets: Assets, failed: set<AssetId>, work: AssetId -> Work,
                   ready: nat, rejected: nat, retried: nat, id: AssetId, now: int)
    requires Drained(start, assets, failed, work, ready, rejected, retried) && Candidate(assets, id, failed, now)
    ensures var held := assets[id := Claimed(assets[id], now)];
            && StillClaimed(held, id, now)
            && match OutcomeOf(held[id].attempts, work(id))
               case BecameReady =>
                 && Drained(start, WithReady(held, id, now), failed, work, ready + 1, rejected, retried)
                 && |Waiting(WithReady(held, id, now), failed)| < |Waiting(assets, failed)|
               case BecameRejected =>
                 && Drained(start, WithRejected(held, id), failed, work, ready, rejected + 1, retried)
                 && |Waiting(WithRejected(held, id), failed)| < |Waiting(assets, failed)|
               case Retried =>
                 && Drained(start, WithReleased(held, id, now), failed + {id}, work, ready, rejected, retried + 1)
                 && |Waiting(WithReleased(held, id, now), failed + {id})| < |Waiting(assets, failed)|
  {
    ProcessedAlone(assets, id, work(id), now);
    Round(assets, failed, id, work(id), now);
    RoundKeepsDrained(start, assets, failed, work, ready, rejected, retried, id, now);
    hide Waiting, Drained, Processed, OutcomeOf, WithReady, WithRejected, WithReleased;
  }

  lemma RoundKeepsDrained(start: Assets, assets: Assets, failed: set<AssetId>, work: AssetId -> Work,
                          ready: nat, rejected: nat, retried: nat, id: AssetId, now: int)
    requires Drained(start, assets, failed, work, ready, rejected, retried) && Candidate(assets, id, failed, now)
    ensures var next := assets[id := Processed(assets[id], work(id), now)];
            match OutcomeOf(assets[id].attempts + 1, work(id))
            case BecameReady => Drained(start, next, failed, work, ready + 1, rejected, retried)
            case BecameRejected => Drained(start, next, failed, work, ready, rejected + 1, retried)
            case Retried => Drained(start, next, failed + {id}, work, ready, rejected, retried + 1)
  {
    assert id in Waiting(assets, failed) && start.Keys == assets.Keys;
    hide RowsDrained, OutcomesCounted, Processed, OutcomeOf, Waiting;
    RoundKeepsRows(start, assets, failed, work, id, now);
    RoundIsCounted(start, assets, failed, work(id), ready, rejected, retried, id, now);
  }

  lemma RoundIsCounted(start: Assets, assets: Assets, failed: set<AssetId>, work: Work,
                       ready: nat, rejected: nat, retried: nat, id: AssetId, now: int)
    requires OutcomesCounted(start, assets, failed, ready, rejected, retried) && Candidate(assets, id, failed, now)
    requires id in start && start[id].status == Processing
    ensures var next := assets[id := Processed(assets[id], work, now)];
            match OutcomeOf(assets[id].attempts + 1, work)
            case BecameReady => OutcomesCounted(start, next, failed, ready + 1, rejected, retried)
            case BecameRejected => OutcomesCounted(start, next, failed, ready, rejected + 1, retried)
            case Retried => OutcomesCounted(start, next, failed + {id}, ready, rejected, retried + 1)
  {
    Round(assets, failed, id, work, now);
    var row := Processed(assets[id], work, now);
    StatusAfter(assets[id], work, now);
    hide Waiting, Newly, Processed, OutcomeOf;
    NewlyGrows(start, assets, id, row, Ready);
    NewlyGrows(start, assets, id, row, Rejected);
  }

  lemma StatusAfter(row: Asset, work: Work, now: int)
    requires row.status == Processing
    ensures Processed(row, work, now).status
         == match OutcomeOf(row.attempts + 1, work)
            case BecameReady => Ready
            case BecameRejected => Rejected
            case Retried => Processing
  {
  }

  lemma NewlyGrows(start: Assets, assets: Assets, id: AssetId, row: Asset, status: Status)
    requires id in assets && assets[id].status == Processing != status
    requires id in start && start[id].status == Processing
    ensures |Newly(start, assets[id := row], status)|
        == |Newly(start, assets, status)| + (if row.status == status then 1 else 0)
  {
    var next := assets[id := row];
    if row.status == status {
      assert Newly(start, next, status) == Newly(start, assets, status) + {id};
    } else {
      assert Newly(start, next, status) == Newly(start, assets, status);
    }
  }

  lemma RoundKeepsRows(start: Assets, assets: Assets, failed: set<AssetId>, work: AssetId -> Work, id: AssetId,
      now: int)
    requires RowsDrained(start, assets, failed, work) && Candidate(assets, id, failed, now)
    ensures RowsDrained(start, assets[id := Processed(assets[id], work(id), now)],
                        if OutcomeOf(assets[id].attempts + 1, work(id)) == Retried then failed + {id} else failed, work)
  {
    assert id in Waiting(assets, failed);
    var next := assets[id := Processed(assets[id], work(id), now)];
    var failed1 := if OutcomeOf(assets[id].attempts + 1, work(id)) == Retried then failed + {id} else failed;
    assert DrainedRow(start[id], next[id], id in failed1, work(id));
    hide DrainedRow, Processed, OutcomeOf;
    Round(assets, failed, id, work(id), now);
  }

  /** One round takes exactly one asset out of the waiting ones. */
  lemma Round(assets: Assets, failed: set<AssetId>, id: AssetId, work: Work, now: int)
    requires Candidate(assets, id, failed, now)
    ensures var next := assets[id := Processed(assets[id], work, now)];
            var outcome := OutcomeOf(assets[id].attempts + 1, work);
            && Waiting(next, if outcome == Retried then failed + {id} else failed) == Waiting(assets, failed) - {id}
            && id in Waiting(assets, failed) && id !in failed
  {
  }
}
