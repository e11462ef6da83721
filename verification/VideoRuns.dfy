/** Several pods work on the video queue, stall, crash and take over from each other. */
module VideoRuns {
  import opened Wrappers
  import opened VideoQueue

  type Token = int

  datatype Phase = Working | Transcoding | Uploaded | Done

  /** One claim: claimedAt is the fencing token, attempts the value that the claim returned. */
  datatype Worker = Worker(id: AssetId, claimedAt: int, attempts: nat, phase: Phase, transcodes: nat)

  /** latest names the last claim of every asset; known are all assets that ever existed. */
  datatype World = World(assets: Assets, workers: map<Token, Worker>, latest: map<AssetId, Token>, known: set<AssetId>)

  const INITIAL := World(map[], map[], map[], {})

  datatype Step =
    | Upload(id: AssetId, createdAt: int)
    | Enqueue(id: AssetId)
    | RejectUpload(id: AssetId)
    | ReadyImage(id: AssetId)
    | Remove(id: AssetId)
    | Claim(token: Token, id: AssetId, exclude: set<AssetId>, now: int)
    | BeginTranscode(token: Token)
    | EndTranscode(token: Token)
    | WriteReady(token: Token)
    | Reject(token: Token)
    | Release(token: Token)
    | Crash(token: Token)

  predicate InPhase(w: World, token: Token, phases: set<Phase>) {
    token in w.workers && w.workers[token].phase in phases
  }

  predicate Enabled(w: World, step: Step) {
    match step
    case Upload(id, _) => id !in w.known
    case Enqueue(id) => id in w.assets && w.assets[id].status == PendingUpload
    case RejectUpload(id) => id in w.assets && w.assets[id].status == PendingUpload
    case ReadyImage(id) => id in w.assets && w.assets[id].status == PendingUpload
    // the cleanup job removes nothing that is being processed
    case Remove(id) => id in w.assets && w.assets[id].status != Processing
    // claims of one asset read clocks that do not go back
    case Claim(token, id, exclude, now) =>
      && token !in w.workers && IsNext(w.assets, id, exclude, now)
      && (id in w.latest && w.latest[id] in w.workers ==> w.workers[w.latest[id]].claimedAt <= now)
    case BeginTranscode(token) => InPhase(w, token, {Working}) && w.workers[token].attempts <= MAX_ATTEMPTS
    case EndTranscode(token) => InPhase(w, token, {Transcoding})
    case WriteReady(token) => InPhase(w, token, {Uploaded})
    case Reject(token) => InPhase(w, token, {Working, Transcoding})
    case Release(token) => InPhase(w, token, {Working, Transcoding, Uploaded})
        && w.workers[token].attempts <= MAX_ATTEMPTS
    case Crash(token) => token in w.workers
  }

  function Ended(workers: map<Token, Worker>, token: Token): map<Token, Worker>
    requires token in workers
  {
    workers[token := workers[token].(phase := Done)]
  }

  function WithStatus(assets: Assets, id: AssetId, status: Status): Assets
    requires id in assets
  {
    assets[id := assets[id].(status := status)]
  }

  function Next(w: World, step: Step): World
    requires Enabled(w, step)
  {
    match step
    case Upload(id, createdAt) =>
      w.(assets := w.assets[id := Asset(PendingUpload, None, 0, createdAt)], known := w.known + {id})
    case Enqueue(id) => w.(assets := WithStatus(w.assets, id, Processing))
    case RejectUpload(id) => w.(assets := WithStatus(w.assets, id, Rejected))
    case ReadyImage(id) => w.(assets := WithStatus(w.assets, id, Ready))
    case Remove(id) => w.(assets := w.assets - {id})
    case Claim(token, id, _, now) =>
      var row := Claimed(w.assets[id], now);
      w.(assets := w.assets[id := row],
         workers := w.workers[token := Worker(id, now, row.attempts, Working, 0)],
         latest := w.latest[id := token])
    case BeginTranscode(token) =>
      var worker := w.workers[token];
      w.(workers := w.workers[token := worker.(phase := Transcoding, transcodes := worker.transcodes + 1)])
    case EndTranscode(token) => w.(workers := w.workers[token := w.workers[token].(phase := Uploaded)])
    case WriteReady(token) =>
      var worker := w.workers[token];
      World(VideoQueue.WithReady(w.assets, worker.id, worker.claimedAt), Ended(w.workers, token), w.latest, w.known)
    case Reject(token) => World(WithRejected(w.assets, w.workers[token].id), Ended(w.workers, token), w.latest, w.known)
    case Release(token) =>
      var worker := w.workers[token];
      World(WithReleased(w.assets, worker.id, worker.claimedAt), Ended(w.workers, token), w.latest, w.known)
    case Crash(token) => w.(workers := Ended(w.workers, token))
  }

  // ---------------------------------------------------------------- the invariant

  /** The time on a processing row is that of the asset's latest claim. */
  ghost predicate TokensFence(w: World) {
    && (forall id :: id in w.latest ==> w.latest[id] in w.workers && w.workers[w.latest[id]].id == id)
    && (forall token :: token in w.workers ==> w.workers[token].id in w.latest && w.workers[token].id in w.known)
    && (forall id :: id in w.assets ==> id in w.known && (w.assets[id].status == PendingUpload ==> id !in w.latest))
    && (forall id :: id in w.assets && w.assets[id].startedAt.Some? ==>
          id in w.latest && w.assets[id].startedAt.value == w.workers[w.latest[id]].claimedAt)
  }

  /** A worker that may still act either is the latest claim and holds its row, or has an older token. */
  ghost predicate OvertakenAreOlder(w: World) {
    forall token :: token in w.workers && w.workers[token].phase != Done ==>
      var worker := w.workers[token];
      && worker.id in w.latest && w.latest[worker.id] in w.workers
      && (if w.latest[worker.id] == token
          then worker.id in w.assets && w.assets[worker.id].status == Processing ==>
                 w.assets[worker.id].startedAt == Some(worker.claimedAt)
          else worker.claimedAt < w.workers[w.latest[worker.id]].claimedAt)
  }

  /** The attempts of an asset number its claims. */
  ghost predicate AttemptsNumberClaims(w: World) {
    && (forall token :: token in w.workers ==>
          && 1 <= w.workers[token].attempts
          && w.workers[token].transcodes <= (if w.workers[token].phase == Working then 0 else 1)
          && (w.workers[token].transcodes > 0 ==> w.workers[token].attempts <= MAX_ATTEMPTS)
          && (w.workers[token].id in w.assets ==> w.workers[token].attempts <= w.assets[w.workers[token].id].attempts))
    && (forall a, b ::
          (a in w.workers && b in w.workers && w.workers[a].id == w.workers[b].id
              && w.workers[a].attempts == w.workers[b].attempts)
          ==> a == b)
  }

  ghost predicate Inv(w: World) { TokensFence(w) && OvertakenAreOlder(w) && AttemptsNumberClaims(w) }

  lemma ClaimKeepsFence(w: World, step: Step)
    requires TokensFence(w) && Enabled(w, step) && step.Claim?
    ensures TokensFence(Next(w, step))
  {
    ClaimsACandidate(w, step);
    hide IsNext;
  }

  lemma UploadKeepsFence(w: World, step: Step)
    requires TokensFence(w) && Enabled(w, step) && step.Upload?
    ensures TokensFence(Next(w, step))
  {
    forall id | id in w.latest
      ensures id in w.known
    {
      var token := w.latest[id];
      assert token in w.workers && w.workers[token].id in w.known;
    }
  }

  lemma StepKeepsFence(w: World, step: Step)
    requires TokensFence(w) && Enabled(w, step)
    ensures TokensFence(Next(w, step))
  {
    hide IsNext;
    if step.Claim? {
      ClaimKeepsFence(w, step);
    } else if step.Upload? {
      UploadKeepsFence(w, step);
    }
  }

  lemma ClaimsACandidate(w: World, step: Step)
    requires step.Claim? && Enabled(w, step)
    ensures Candidate(w.assets, step.id, step.exclude, step.now)
  {
  }

  lemma StepKeepsNumbers(w: World, step: Step)
    requires AttemptsNumberClaims(w) && Enabled(w, step)
    requires forall token :: token in w.workers ==> w.workers[token].id in w.known
    ensures AttemptsNumberClaims(Next(w, step))
  {
    hide IsNext;
    if step.Claim? { ClaimsACandidate(w, step); }
  }

  lemma ClaimKeepsOrder(w: World, step: Step)
    requires TokensFence(w) && OvertakenAreOlder(w) && Enabled(w, step) && step.Claim?
    ensures OvertakenAreOlder(Next(w, step))
  {
    ClaimsACandidate(w, step);
    hide IsNext;
  }

  lemma StepKeepsOrder(w: World, step: Step)
    requires TokensFence(w) && OvertakenAreOlder(w) && Enabled(w, step) && !step.Claim?
    ensures OvertakenAreOlder(Next(w, step))
  {
    hide IsNext;
  }

  lemma StepKeepsInv(w: World, step: Step)
    requires Inv(w) && Enabled(w, step)
    ensures Inv(Next(w, step))
  {
    assert forall token :: token in w.workers ==> w.workers[token].id in w.known;
    hide Enabled, Next, TokensFence, OvertakenAreOlder, AttemptsNumberClaims;
    StepKeepsFence(w, step);
    StepKeepsNumbers(w, step);
    if step.Claim? { ClaimKeepsOrder(w, step); } else { StepKeepsOrder(w, step); }
  }

  // ---------------------------------------------------------------- runs

  ghost predicate ValidRun(steps: seq<Step>)
    decreases |steps|, 0
  {
    steps == [] ||
    var n := |steps| - 1;
    ValidRun(steps[..n]) && Enabled(Reached(steps[..n]), steps[n])
  }

  ghost function Reached(steps: seq<Step>): World
    requires ValidRun(steps)
    decreases |steps|, 1
  {
    if steps == [] then INITIAL else Next(Reached(steps[..|steps| - 1]), steps[|steps| - 1])
  }

  lemma {:induction false} RunKeepsInv(steps: seq<Step>)
    requires ValidRun(steps)
    ensures Inv(Reached(steps))
  {
    hide Next, Enabled;
    if steps != [] {
      hide Inv;
      RunKeepsInv(steps[..|steps| - 1]);
      StepKeepsInv(Reached(steps[..|steps| - 1]), steps[|steps| - 1]);
    }
  }

  // ---------------------------------------------------------------- fencing

  lemma {:induction false} LatestIsAClaim(steps: seq<Step>, claim: Step, more: seq<Step>)
    requires ValidRun(steps + [claim] + more) && ValidRun(steps) && Enabled(Reached(steps), claim) && claim.Claim?
    requires forall k :: 0 <= k < |more| ==> !(more[k].Claim? && more[k].id == claim.id)
    ensures claim.id in Reached(steps + [claim] + more).latest
    ensures Reached(steps + [claim] + more).latest[claim.id] == claim.token
    decreases |more|
  {
    hide Enabled, Inv;
    var all := steps + [claim] + more;
    if more == [] {
      assert all[..|all| - 1] == steps && all[|all| - 1] == claim;
    } else {
      assert all[..|all| - 1] == steps + [claim] + more[..|more| - 1] && all[|all| - 1] == more[|more| - 1];
      LatestIsAClaim(steps, claim, more[..|more| - 1]);
    }
  }

  /** A READY write or a release takes effect only if that worker's claim is the latest of its asset. */
  lemma OnlyTheLatestClaimWrites(steps: seq<Step>, token: Token)
    requires ValidRun(steps) && token in Reached(steps).workers && Reached(steps).workers[token].phase != Done
    requires StillClaimed(Reached(steps).assets, Reached(steps).workers[token].id,
        Reached(steps).workers[token].claimedAt)
    ensures Reached(steps).workers[token].id in Reached(steps).latest
    ensures Reached(steps).latest[Reached(steps).workers[token].id] == token
  {
    RunKeepsInv(steps);
    hide AttemptsNumberClaims;
  }

  /** What an undisturbed worker achieves in any state. Within three attempts its asset is READY after
      the transcoding and the upload; a failure on the way frees it and unacceptable media rejects it.
      A fourth claim can only reject. */
  lemma UndisturbedWork(w: World, token: Token, id: AssetId, exclude: set<AssetId>, now: int)
    requires Enabled(w, Claim(token, id, exclude, now))
    ensures var attempts := w.assets[id].attempts + 1;
            var held := Asset(Processing, Some(now), attempts, w.assets[id].createdAt);
            var w1 := Next(w, Claim(token, id, exclude, now));
            && w1.assets == w.assets[id := held]
            && (attempts > 3 ==>
                  && !Enabled(w1, BeginTranscode(token)) && !Enabled(w1, Release(token)) && Enabled(w1, Reject(token))
                  && Next(w1, Reject(token)).assets == w.assets[id := held.(status := Rejected)])
            && (attempts <= 3 ==>
                  && Enabled(w1, BeginTranscode(token))
                  && var w2 := Next(w1, BeginTranscode(token));
                  && Enabled(w2, EndTranscode(token))
                  && var w3 := Next(w2, EndTranscode(token));
                  && Enabled(w3, WriteReady(token))
                  && Next(w3, WriteReady(token)).assets == w.assets[id := held.(status := Ready)]
                  && (forall k :: k in {w1, w2} ==>
                        && Enabled(k, Reject(token))
                        && Next(k, Reject(token)).assets == w.assets[id := held.(status := Rejected)])
                  && (forall k :: k in {w1, w2, w3} ==>
                        && Enabled(k, Release(token))
                        && Next(k, Release(token)).assets == w.assets[id := held.(startedAt := None)]))
  {
    assert w.assets[id].status == Processing;
    hide IsNext;
  }

  /** How an upload ends: an image is READY, a video waits to be processed, either may be rejected; and
      nothing is removed while it is being processed. */
  lemma UploadsEnd(w: World, id: AssetId)
    requires id in w.assets
    ensures var row := w.assets[id];
            && (Enabled(w, Remove(id)) <==> row.status != Processing)
            && (forall step :: step in {Enqueue(id), RejectUpload(id), ReadyImage(id)} ==>
                  (Enabled(w, step) <==> row.status == PendingUpload))
            && (row.status == PendingUpload ==>
                  && Next(w, Enqueue(id)).assets == w.assets[id := row.(status := Processing)]
                  && Next(w, RejectUpload(id)).assets == w.assets[id := row.(status := Rejected)]
                  && Next(w, ReadyImage(id)).assets == w.assets[id := row.(status := Ready)])
  {
  }

  /** In every run, a worker's READY write and its release take effect exactly when its asset is still
      in processing and its claim is the latest one of the asset. */
  lemma WritesTakeEffectExactly(steps: seq<Step>, token: Token)
    requires ValidRun(steps) && token in Reached(steps).workers
    ensures var w := Reached(steps);
            var id := w.workers[token].id;
            var holds := && id in w.assets && w.assets[id].status == Processing
                         && id in w.latest && w.latest[id] == token;
            && (Enabled(w, WriteReady(token)) ==>
                  Next(w, WriteReady(token)).assets
                  == if holds then w.assets[id := w.assets[id].(status := Ready)] else w.assets)
            && (Enabled(w, Release(token)) ==>
                  Next(w, Release(token)).assets
                  == if holds then w.assets[id := w.assets[id].(startedAt := None)] else w.assets)
  {
    RunKeepsInv(steps);
    hide AttemptsNumberClaims, ValidRun, Reached;
  }

  lemma StepKeepsWorkers(w: World, step: Step, token: Token)
    requires Enabled(w, step) && token in w.workers
    ensures token in Next(w, step).workers && Next(w, step).workers[token].id == w.workers[token].id
    ensures Next(w, step).workers[token].claimedAt == w.workers[token].claimedAt
  {
    hide IsNext;
  }

  lemma {:induction false} WorkersRemain(steps: seq<Step>, more: seq<Step>, token: Token)
    requires ValidRun(steps) && ValidRun(steps + more) && token in Reached(steps).workers
    ensures token in Reached(steps + more).workers
    ensures Reached(steps + more).workers[token].id == Reached(steps).workers[token].id
    decreases |more|
  {
    hide Enabled, Next;
    if more == [] {
      assert steps + more == steps;
    } else {
      var n := |more| - 1;
      assert (steps + more)[..|steps + more| - 1] == steps + more[..n];
      WorkersRemain(steps, more[..n], token);
      StepKeepsWorkers(Reached(steps + more[..n]), more[n], token);
    }
  }

  /** After another claim of the same asset, the READY write and the release of an earlier worker
      change no row. */
  lemma OvertakenWritesAreVoid(steps: seq<Step>, claim: Step, more: seq<Step>, token: Token)
    requires ValidRun(steps) && token in Reached(steps).workers && Enabled(Reached(steps), claim)
    requires claim.Claim? && claim.id == Reached(steps).workers[token].id
    requires ValidRun(steps + [claim] + more)
    requires forall k :: 0 <= k < |more| ==> !(more[k].Claim? && more[k].id == claim.id)
    ensures var w := Reached(steps + [claim] + more);
            && token in w.workers
            && (Enabled(w, WriteReady(token)) ==> Next(w, WriteReady(token)).assets == w.assets)
            && (Enabled(w, Release(token)) ==> Next(w, Release(token)).assets == w.assets)
  {
    hide ValidRun, Reached, Inv, IsNext;
    var w := Reached(steps + [claim] + more);
    LatestIsAClaim(steps, claim, more);
    assert steps + [claim] + more == steps + ([claim] + more);
    WorkersRemain(steps, [claim] + more, token);
    if w.workers[token].phase != Done && StillClaimed(w.assets, claim.id, w.workers[token].claimedAt) {
      OnlyTheLatestClaimWrites(steps + [claim] + more, token);
    }
  }

  /** markRejected is not fenced: the rejection of a worker changes its asset exactly when the asset
      is being processed, whoever holds it. */
  lemma RejectTakesEffectExactly(w: World, token: Token)
    requires Enabled(w, Reject(token))
    ensures var id := w.workers[token].id;
            && (Next(w, Reject(token)).assets != w.assets <==> id in w.assets && w.assets[id].status == Processing)
            && (id in w.assets && w.assets[id].status == Processing ==>
                  Next(w, Reject(token)).assets == w.assets[id := w.assets[id].(status := Rejected)])
  {
  }

  /** The work of the claim that holds the asset, which would have made it READY, is then lost. */
  lemma RejectIsNotFenced(steps: seq<Step>, token: Token, owner: Token)
    requires ValidRun(steps) && Enabled(Reached(steps), Reject(token)) && token != owner
    requires InPhase(Reached(steps), owner, {Uploaded})
    requires Reached(steps).workers[owner].id == Reached(steps).workers[token].id
    requires StillClaimed(Reached(steps).assets, Reached(steps).workers[owner].id,
        Reached(steps).workers[owner].claimedAt)
    ensures var w, w1 := Reached(steps), Next(Reached(steps), Reject(token));
            var id := w.workers[owner].id;
            && id in w.latest && w.latest[id] == owner
            && Enabled(w, WriteReady(owner)) && Next(w, WriteReady(owner)).assets[id].status == Ready
            && w1.assets[id].status == Rejected
            && Enabled(w1, WriteReady(owner)) && Next(w1, WriteReady(owner)).assets == w1.assets
  {
    OnlyTheLatestClaimWrites(steps, owner);
    hide ValidRun, Reached, Inv;
  }

  lemma RunExtends(steps: seq<Step>, step: Step)
    requires ValidRun(steps) && Enabled(Reached(steps), step)
    ensures ValidRun(steps + [step]) && Reached(steps + [step]) == Next(Reached(steps), step)
  {
    hide Enabled, Next;
    assert (steps + [step])[..|steps + [step]| - 1] == steps;
  }

  /** The first pod claims the asset and stalls. */
  const STALLED: seq<Step> := [Upload(1, 0)] + [Enqueue(1)] + [Claim(1, 1, {}, 0)]

  /** A second pod takes over a millisecond after the first went stale, and uploads its work. */
  const TAKEOVER: seq<Step> := STALLED + [Claim(2, 1, {}, 900_001)] + [BeginTranscode(2)] + [EndTranscode(2)]

  lemma StalledIsReached()
    ensures ValidRun(STALLED)
    ensures Reached(STALLED)
         == World(map[1 := Asset(Processing, Some(0), 1, 0)], map[1 := Worker(1, 0, 1, Working, 0)], map[1 := 1], {1})
  {
    assert ValidRun([]) && Reached([]) == INITIAL;
    hide ValidRun, Reached;
    assert [] + [Upload(1, 0)] == [Upload(1, 0)];
    RunExtends([], Upload(1, 0));
    RunExtends([Upload(1, 0)], Enqueue(1));
    RunExtends([Upload(1, 0)] + [Enqueue(1)], Claim(1, 1, {}, 0));
  }

  /** Such a run: the first pod, overtaken, may still reject the asset that the second holds. */
  lemma OvertakenRejectIsReached()
    ensures ValidRun(TAKEOVER)
    ensures Reached(TAKEOVER)
         == World(map[1 := Asset(Processing, Some(900_001), 2, 0)],
                  map[1 := Worker(1, 0, 1, Working, 0), 2 := Worker(1, 900_001, 2, Uploaded, 1)],
                  map[1 := 2], {1})
    ensures Enabled(Reached(TAKEOVER), Reject(1)) && Reached(TAKEOVER).latest[1] == 2
    ensures Next(Reached(TAKEOVER), Reject(1)).assets[1].status == Rejected
  {
    hide ValidRun, Reached, STALLED;
    StalledIsReached();
    RunExtends(STALLED, Claim(2, 1, {}, 900_001));
    RunExtends(STALLED + [Claim(2, 1, {}, 900_001)], BeginTranscode(2));
    RunExtends(STALLED + [Claim(2, 1, {}, 900_001)] + [BeginTranscode(2)], EndTranscode(2));
  }

  // ---------------------------------------------------------------- settled assets

  predicate Settled(w: World, id: AssetId) {
    id in w.assets && w.assets[id].status in {Ready, Rejected}
  }

  /** Settled assets are never touched again until the cleanup job removes them for good. */
  lemma SettledStays(w: World, step: Step, id: AssetId)
    requires Inv(w) && Enabled(w, step) && Settled(w, id)
    ensures id in Next(w, step).assets ==> Next(w, step).assets[id] == w.assets[id]
  {
    hide OvertakenAreOlder, AttemptsNumberClaims;
  }

  lemma RemovedStays(w: World, step: Step, id: AssetId)
    requires Inv(w) && Enabled(w, step) && id in w.known && id !in w.assets
    ensures id in Next(w, step).known && id !in Next(w, step).assets
  {
    hide OvertakenAreOlder, AttemptsNumberClaims;
  }

  /** READY and REJECTED are absorbing in every column, as long as the row exists. */
  lemma {:induction false} SettledForever(steps: seq<Step>, more: seq<Step>, id: AssetId)
    requires ValidRun(steps) && ValidRun(steps + more) && id in Reached(steps).assets
    requires Reached(steps).assets[id].status == Ready || Reached(steps).assets[id].status == Rejected
    ensures var w, w1 := Reached(steps), Reached(steps + more);
            id in w1.known && (id in w1.assets ==> w1.assets[id] == w.assets[id])
    decreases |more|
  {
    hide Next, Enabled;
    if more == [] {
      assert steps + more == steps;
      RunKeepsInv(steps);
    } else {
      hide Inv;
      var n := |more| - 1;
      assert (steps + more)[..|steps + more| - 1] == steps + more[..n];
      SettledForever(steps, more[..n], id);
      RunKeepsInv(steps + more[..n]);
      var w := Reached(steps + more[..n]);
      KnownStays(w, more[n], id);
      if id in w.assets { SettledStays(w, more[n], id); } else { RemovedStays(w, more[n], id); }
    }
  }

  lemma KnownStays(w: World, step: Step, id: AssetId)
    requires Enabled(w, step) && id in w.known
    ensures id in Next(w, step).known
  {
  }

  // ---------------------------------------------------------------- attempts

  /** Claims with different numbers up to n are at most n. */
  lemma {:induction false} NumberedClaims(workers: map<Token, Worker>, claims: set<Token>, n: nat)
    requires forall token :: token in claims ==> token in workers && 1 <= workers[token].attempts <= n
    requires forall a, b :: a in claims && b in claims && workers[a].attempts == workers[b].attempts ==> a == b
    ensures |claims| <= n
    decreases n
  {
    if n == 0 {
      assert (forall token :: token !in claims) ==> claims == {};
    } else if token :| token in claims && workers[token].attempts == n {
      NumberedClaims(workers, claims - {token}, n - 1);
    } else {
      NumberedClaims(workers, claims, n - 1);
    }
  }

  /** However many pods take over, crash and retry, an asset is transcoded at most three times. */
  lemma AtMostThreeTranscodes(steps: seq<Step>, id: AssetId)
    requires ValidRun(steps)
    ensures var workers := Reached(steps).workers;
            && |set token | token in workers && workers[token].id == id && workers[token].transcodes > 0| <= 3
            && forall token :: token in workers ==> workers[token].transcodes <= 1
  {
    RunKeepsInv(steps);
    hide TokensFence, OvertakenAreOlder;
    var workers := Reached(steps).workers;
    var claims := set token | token in workers && workers[token].id == id && workers[token].transcodes > 0;
    NumberedClaims(workers, claims, MAX_ATTEMPTS);
  }
}
