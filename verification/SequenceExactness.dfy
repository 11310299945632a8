/** Exactly when a program signs right, for every run, whether it completes or not. */
module SequenceExactness {
  import opened GoWords
  import opened ChainModel
  import opened Submission
  import opened DeployCalls
  import opened DeployHistory
  import opened SequenceDiscipline
  import opened SequenceTheorems

  // ----- one call -----

  function DeploySigning(env: Env, w: World, name: string, file: string, override: uint64): SignOutcome {
    if name !in w.accounts || env.files(w.clock, file).None? || env.files(w.clock, file).value == [] then SignFailed
    else Sign(env, w, name, StoreCode(w.accounts[name].address, env.files(w.clock, file).value), override)
  }

  /** The first transaction a call signs, read off the state before the call. */
  function FirstSigning(env: Env, w: World, d: Deployer, c: Call): SignOutcome {
    match c
    case Upload(file, gasPrice) =>
      if d.signer.name !in w.accounts then SignFailed
      else DeploySigning(env, Bump(w, d.signer.name), d.signer.name, file, gasPrice)
    case UploadAndInstantiate(payload, file, gasPrice) =>
      var (w1, _, bumped) := IncreaseSequence(w, d);
      if !bumped || payload.None? then SignFailed else DeploySigning(env, w1, d.signer.name, file, gasPrice)
    case _ => SignFailed
  }

  lemma SubmitSigns(env: Env, w: World, name: string, msg: Msg, override: uint64)
    ensures var (w', r) := Submit(env, w, name, msg, override);
            var s := Sign(env, w, name, msg, override);
            if s.Signed? then w'.signed == w.signed + [SigningOf(w, s.tx)] else r.Exit? && w' == w
  {
    var s := Sign(env, w, name, msg, override);
    if s.Signed? {
      var w1 := w.(signed := w.signed + [SigningOf(w, s.tx)]);
      var (w2, _) := Broadcast(env, w1, s.tx);
      WaitShape(env, w2, s.tx, POLLS);
    }
  }

  lemma DeploySigns(env: Env, w: World, name: string, file: string, override: uint64)
    ensures var (w', r) := DeployContract(env, w, name, file, override);
            var s := DeploySigning(env, w, name, file, override);
            if s.Signed? then w'.signed == w.signed + [SigningOf(w, s.tx)] else r.Exit? && w' == w
  {
    if env.files(w.clock, file).Some? && name in w.accounts {
      SubmitSigns(env, w, name, StoreCode(w.accounts[name].address, env.files(w.clock, file).value), override);
    }
  }

  predicate Deploys(c: Call) {
    c.Upload? || c.UploadAndInstantiate?
  }

  lemma StoreSigns(env: Env, w: World, name: string, file: string, gasPrice: uint64)
    ensures var (w', r) := StoreStage(env, w, name, file, gasPrice);
            var s := DeploySigning(env, w, name, file, gasPrice);
            if s.Signed? then w'.signed == w.signed + [SigningOf(w, s.tx)] else r.Exit? && w' == w
  {
    DeploySigns(env, w, name, file, gasPrice);
  }

  lemma PairSignsFirst(env: Env, w: World, d: Deployer, payload: Option<bytes>, file: string, gasPrice: uint64)
    ensures var (w', _, r) := DoUploadAndInstantiate(env, w, d, payload, file, gasPrice);
            var s := FirstSigning(env, w, d, UploadAndInstantiate(payload, file, gasPrice));
            if s.Signed? then w.signed + [SigningOf(w, s.tx)] <= w'.signed
            else w'.signed == w.signed && r.Exit?
  {
    var (w1, d1, bumped) := IncreaseSequence(w, d);
    if bumped && payload.Some? {
      StoreSigns(env, w1, d.signer.name, file, gasPrice);
      var s := DeploySigning(env, w1, d.signer.name, file, gasPrice);
      assert w1.signed == w.signed && w1.ledger == w.ledger && w1.confirmed == w.confirmed;
      assert s.Signed? ==> SigningOf(w1, s.tx) == SigningOf(w, s.tx);
      var (w2, codeId) := StoreStage(env, w1, d.signer.name, file, gasPrice);
      if codeId.Ok? {
        FinishKeepsHistory(env, w2, d1, codeId.value, payload.value);
        var (w3, _, _) := FinishPair(env, w2, d1, codeId.value, payload.value);
        assert w2.signed <= w3.signed;
      }
    }
  }

  /** A call signs if and only if its first signing succeeds, and that is what it signs first; a
      deploying call that signs nothing ends the process. */
  lemma FirstSigningIsFirst(env: Env, w: World, d: Deployer, c: Call)
    ensures var (w', _, goesOn) := Step(env, w, d, c);
            var s := FirstSigning(env, w, d, c);
            if s.Signed? then w.signed + [SigningOf(w, s.tx)] <= w'.signed
            else w'.signed == w.signed && (Deploys(c) ==> !goesOn)
  {
    match c
    case SyncAccount(_) =>
    case SetAccount(_) =>
    case SetFirstDeploy(_) =>
    case Upload(file, gasPrice) =>
      if d.signer.name in w.accounts {
        DeploySigns(env, Bump(w, d.signer.name), d.signer.name, file, gasPrice);
      }
    case UploadAndInstantiate(payload, file, gasPrice) => PairSignsFirst(env, w, d, payload, file, gasPrice);
  }

  /** From a settled world, the first signing of a call is right if and only if the guard allows the
      call. */
  lemma FirstSigningRightIffAllowed(env: Env, w: World, d: Deployer, c: Call)
    requires Settled(w) && FirstSigning(env, w, d, c).Signed?
    ensures Right(SigningOf(w, FirstSigning(env, w, d, c).tx)) <==> Allowed(BookOf(w, d), c)
  {
    var name := d.signer.name;
    assert name in w.accounts;
    assert BookOf(w, d).standing[name] == StandingOf(w, name);
  }

  /** MAIN THEOREM, one call. Whether the call completes or the process ends in it: if it signs at all,
      everything it signed is right if and only if the guard allowed it, and if the guard did not,
      already its first signing is wrong. */
  lemma SigningCallRightIffAllowed(env: Env, w: World, d: Deployer, c: Call)
    requires Settled(w) && Room(w, d.signer.name, Weight(BookOf(w, d), c, d.signer.name))
    ensures var (w', _, _) := Step(env, w, d, c);
            w'.signed != w.signed ==>
              && |w.signed| < |w'.signed|
              && (AllRightFrom(w', |w.signed|) <==> Allowed(BookOf(w, d), c))
              && (Right(w'.signed[|w.signed|]) <==> Allowed(BookOf(w, d), c))
  {
    var (w', _, _) := Step(env, w, d, c);
    FirstSigningIsFirst(env, w, d, c);
    if w'.signed != w.signed {
      var s := SigningOf(w, FirstSigning(env, w, d, c).tx);
      assert w'.signed[|w.signed|] == (w.signed + [s])[|w.signed|] == s;
      FirstSigningRightIffAllowed(env, w, d, c);
      if Allowed(BookOf(w, d), c) {
        StepAllowed(env, w, d, c);
      }
    }
  }

  /** From any world, settled or not: a call that completed or signed anything, and signed only right
      transactions, was an allowed one. */
  lemma RightCallWasAllowed(env: Env, w: World, d: Deployer, c: Call)
    requires var (w', _, goesOn) := Step(env, w, d, c);
             (goesOn || w'.signed != w.signed) && AllRightFrom(w', |w.signed|)
    ensures Allowed(BookOf(w, d), c)
  {
    var (w', _, _) := Step(env, w, d, c);
    FirstSigningIsFirst(env, w, d, c);
    if FirstSigning(env, w, d, c).Signed? {
      var s := SigningOf(w, FirstSigning(env, w, d, c).tx);
      assert w'.signed[|w.signed|] == (w.signed + [s])[|w.signed|] == s;
      assert BookOf(w, d).standing[d.signer.name] == StandingOf(w, d.signer.name);
    }
  }

  // ----- whole runs -----

  /** The position of the first call that the guard refuses; the length if it refuses none. */
  function FirstRefused(b: Book, calls: seq<Call>): (k: nat)
    ensures k <= |calls|
    ensures k == |calls| <==> AllAllowed(b, calls)
    decreases |calls|
  {
    if calls == [] || !Allowed(b, calls[0]) then 0 else 1 + FirstRefused(BookAfter(b, calls[0]), calls[1..])
  }

  /** What a run that ends in `w'` owes to the first refused call: `wk` and `dk` are the state that the
      calls before it lead to, and `reached` says that they completed. */
  ghost predicate WrongFrom(env: Env, w: World, wk: World, dk: Deployer, reached: bool, refused: seq<Call>,
                            w': World, done: bool)
  {
    && |w.signed| <= |wk.signed| && AllRightFrom(wk, |w.signed|)
    && (!reached || refused == [] ==> w' == wk && done == reached)
    && (reached && refused != [] ==>
          var s := FirstSigning(env, wk, dk, refused[0]);
          if s.Signed? then wk.signed + [SigningOf(wk, s.tx)] <= w'.signed && !Right(SigningOf(wk, s.tx))
          else w'.signed == wk.signed && !done)
  }

  /** MAIN THEOREM, every run. Whether it completes or ends early: everything signed before the first
      refused call is right. If that call is reached and signs, its first signing is wrong and stays on
      record; if it is reached and cannot sign, the process ends there. */
  lemma {:induction false} EveryRunIsRightUpToTheRefusedCall(
      env: Env, w: World, d: Deployer, calls: seq<Call>, k: nat,
      wk: World, dk: Deployer, reached: bool, w': World, d': Deployer, done: bool)
    requires Settled(w) && RoomFor(w, d, calls) && k == FirstRefused(BookOf(w, d), calls)
    requires Run(env, w, d, calls[..k]) == (wk, dk, reached)
    requires Run(env, w, d, calls) == (w', d', done)
    ensures WrongFrom(env, w, wk, dk, reached, calls[k..], w', done)
    decreases |calls|
  {
    if k == 0 {
      if calls != [] {
        RefusedCall(env, w, d, calls);
      }
    } else {
      var prefix := calls[..k];
      assert prefix[0] == calls[0] && prefix[1..] == calls[1..][..k - 1] && calls[1..][k - 1..] == calls[k..];
      RoomForFirst(w, d, calls);
      StepAllowed(env, w, d, calls[0]);
      var (w1, d1, goesOn) := Step(env, w, d, calls[0]);
      if goesOn {
        RoomForRest(w, d, calls, w1, d1);
        EveryRunIsRightUpToTheRefusedCall(env, w1, d1, calls[1..], k - 1, wk, dk, reached, w', d', done);
        RunKeepsHistory(env, w1, d1, prefix[1..]);
        RightAfterRight(w, w1, wk);
      }
    }
  }

  lemma RightAfterRight(w: World, w1: World, w2: World)
    requires |w.signed| <= |w1.signed| && AllRightFrom(w1, |w.signed|)
    requires w1.signed <= w2.signed && AllRightFrom(w2, |w1.signed|)
    ensures AllRightFrom(w2, |w.signed|)
  {
    forall i | |w.signed| <= i < |w2.signed| ensures Right(w2.signed[i]) {
      assert i < |w1.signed| ==> w2.signed[i] == w1.signed[i];
    }
  }

  /** A run that begins with a refused call. */
  lemma RefusedCall(env: Env, w: World, d: Deployer, calls: seq<Call>)
    requires Settled(w) && calls != [] && !Allowed(BookOf(w, d), calls[0])
    ensures var (w', _, done) := Run(env, w, d, calls); WrongFrom(env, w, w, d, true, calls, w', done)
  {
    FirstSigningIsFirst(env, w, d, calls[0]);
    var (w1, d1, goesOn) := Step(env, w, d, calls[0]);
    if goesOn {
      RunKeepsHistory(env, w1, d1, calls[1..]);
      var (w', _, _) := Run(env, w, d, calls);
      assert w1.signed <= w'.signed;
    }
    if FirstSigning(env, w, d, calls[0]).Signed? {
      FirstSigningRightIffAllowed(env, w, d, calls[0]);
    }
  }

  /** The condition in full: a run signed something wrong if and only if it reached a refused call and
      that call could sign. */
  lemma RunWrongIffRefusedCallSigns(env: Env, w: World, d: Deployer, calls: seq<Call>, k: nat,
                                    wk: World, dk: Deployer, reached: bool)
    requires Settled(w) && RoomFor(w, d, calls) && k == FirstRefused(BookOf(w, d), calls)
    requires Run(env, w, d, calls[..k]) == (wk, dk, reached)
    ensures !AllRightFrom(Run(env, w, d, calls).0, |w.signed|) <==>
            reached && k < |calls| && FirstSigning(env, wk, dk, calls[k]).Signed?
  {
    var (w', d', done) := Run(env, w, d, calls);
    EveryRunIsRightUpToTheRefusedCall(env, w, d, calls, k, wk, dk, reached, w', d', done);
    if reached && k < |calls| && FirstSigning(env, wk, dk, calls[k]).Signed? {
      var s := SigningOf(wk, FirstSigning(env, wk, dk, calls[k]).tx);
      assert w'.signed[|wk.signed|] == (wk.signed + [s])[|wk.signed|] == s;
    }
  }

  /** Of a program that completes, every signing was right if and only if every call was allowed. */
  lemma CompletedProgramRightIffAllowed(env: Env, w: World, d: Deployer, calls: seq<Call>)
    requires Settled(w) && RoomFor(w, d, calls)
    requires Run(env, w, d, calls).2
    ensures AllRightFrom(Run(env, w, d, calls).0, |w.signed|) <==> AllAllowed(BookOf(w, d), calls)
  {
    var k := FirstRefused(BookOf(w, d), calls);
    var (wk, dk, reached) := Run(env, w, d, calls[..k]);
    var (w', d', done) := Run(env, w, d, calls);
    EveryRunIsRightUpToTheRefusedCall(env, w, d, calls, k, wk, dk, reached, w', d', done);
    RunWrongIffRefusedCallSigns(env, w, d, calls, k, wk, dk, reached);
  }

  // ----- programs without mid-run adjustments -----

  function Uploads(calls: seq<Call>): nat {
    if calls == [] then 0 else (if calls[0].Upload? then 1 else 0) + Uploads(calls[1..])
  }

  function Pairs(calls: seq<Call>): nat {
    if calls == [] then 0 else (if calls[0].UploadAndInstantiate? then 1 else 0) + Pairs(calls[1..])
  }

  ghost predicate DeploysOnly(calls: seq<Call>) {
    forall c :: c in calls ==> Deploys(c)
  }

  lemma {:induction false} DeploysAfterFirst(b: Book, calls: seq<Call>)
    requires DeploysOnly(calls) && !b.isFirstDeploy && b.signer in b.standing && b.standing[b.signer].Behind?
    ensures AllAllowed(b, calls) && FinalBook(b, calls) == b
    ensures Total(b, calls, b.signer) == Uploads(calls) + 2 * Pairs(calls)
    decreases |calls|
  {
    if calls != [] {
      assert calls[0] in calls;
      assert BookAfter(b, calls[0]) == b by {
        assert b.standing[b.signer := Behind] == b.standing;
      }
      DeploysAfterFirst(b, calls[1..]);
    }
  }

  /** The program the tools run: synchronise, then upload and instantiate in any order. From a level
      counter and a set flag it is allowed if and only if it does not begin with a bare Upload. */
  lemma DeployListAllowedIff(b: Book, calls: seq<Call>)
    requires DeploysOnly(calls) && b.isFirstDeploy && b.signer in b.standing && b.standing[b.signer].Level?
    ensures AllAllowed(b, calls) <==> calls == [] || calls[0].UploadAndInstantiate?
    ensures AllAllowed(b, calls) && calls != [] ==>
              && Total(b, calls, b.signer) == Uploads(calls) + 2 * Pairs(calls)
              && !FinalBook(b, calls).isFirstDeploy && FinalBook(b, calls).signer == b.signer
              && FinalBook(b, calls).standing == b.standing[b.signer := Behind]
  {
    if calls != [] {
      assert calls[0] in calls;
      if calls[0].UploadAndInstantiate? {
        DeploysAfterFirst(BookAfter(b, calls[0]), calls[1..]);
      }
    }
  }

  /** With a synchronisation first, the same holds from any counter whatever. */
  lemma SyncedDeployListAllowedIff(b: Book, calls: seq<Call>)
    requires DeploysOnly(calls) && b.isFirstDeploy && b.signer in b.standing
    ensures var program := [SyncAccount(b.signer)] + calls;
            && (AllAllowed(b, program) <==> calls == [] || calls[0].UploadAndInstantiate?)
            && (AllAllowed(b, program) ==> Total(b, program, b.signer) == Uploads(calls) + 2 * Pairs(calls))
            && (AllAllowed(b, program) && calls != [] ==>
                  && !FinalBook(b, program).isFirstDeploy && FinalBook(b, program).signer == b.signer
                  && b.signer in FinalBook(b, program).standing && FinalBook(b, program).standing[b.signer].Behind?
                  && Uploads(calls) + 2 * Pairs(calls) > 0)
  {
    var program := [SyncAccount(b.signer)] + calls;
    assert program[0] == SyncAccount(b.signer) && program[1..] == calls;
    var b1 := BookAfter(b, SyncAccount(b.signer));
    DeployListAllowedIff(b1, calls);
    assert AllAllowed(b, program) <==> AllAllowed(b1, calls);
    assert Total(b, program, b.signer) == Total(b1, calls, b.signer);
    assert FinalBook(b, program) == FinalBook(b1, calls);
  }

  /** Deploys execute nothing of the other accounts. */
  lemma {:induction false} OthersIdle(b: Book, calls: seq<Call>, n: string)
    requires DeploysOnly(calls) && n != b.signer
    ensures Total(b, calls, n) == 0
    decreases |calls|
  {
    if calls != [] {
      assert calls[0] in calls;
      OthersIdle(BookAfter(b, calls[0]), calls[1..], n);
    }
  }

  /** The signer's own room is enough for a synchronised list of deploys. */
  lemma RoomForSyncedDeploys(w: World, d: Deployer, calls: seq<Call>)
    requires d.isFirstDeploy && d.signer.name in w.accounts
    requires DeploysOnly(calls) && (calls != [] ==> calls[0].UploadAndInstantiate?)
    requires Room(w, d.signer.name, Uploads(calls) + 2 * Pairs(calls))
    ensures RoomFor(w, d, [SyncAccount(d.signer.name)] + calls)
  {
    var b := BookOf(w, d);
    var program := [SyncAccount(b.signer)] + calls;
    assert program[0] == SyncAccount(b.signer) && program[1..] == calls;
    SyncedDeployListAllowedIff(b, calls);
    forall n | n in w.accounts ensures Expected(w.ledger, w.accounts[n].address) + Total(b, program, n) < TWO_64 {
      if n != b.signer {
        OthersIdle(BookAfter(b, program[0]), calls, n);
        assert Total(b, program, n) == 0;
      }
    }
  }

  /** MAIN THEOREM. Synchronise, then upload and instantiate, then any uploads and pairs: in every
      environment every signing is right, the signer's signed and committed sequences are S, S + 1,
      ... from what the chain expected at the start, whatever the local counter was. A program of u
      uploads and p pairs that completes has committed exactly u + 2p of them, and unless it was
      empty the flag is clear and the local counter is one behind the chain, at S + u + 2p - 1. */
  lemma SyncedDeployProgram(env: Env, w: World, d: Deployer, calls: seq<Call>, w': World, d': Deployer, done: bool)
    requires Settled(w) && d.isFirstDeploy && d.signer.name in w.accounts
    requires Room(w, d.signer.name, Uploads(calls) + 2 * Pairs(calls))
    requires DeploysOnly(calls) && (calls != [] ==> calls[0].UploadAndInstantiate?)
    requires Run(env, w, d, [SyncAccount(d.signer.name)] + calls) == (w', d', done)
    ensures |w.signed| <= |w'.signed| && |w.ledger.included| <= |w'.ledger.included| && AllRightFrom(w', |w.signed|)
    ensures var name := d.signer.name;
            var first := Expected(w.ledger, w.accounts[name].address);
            var end := Expected(w'.ledger, w.accounts[name].address);
            && NewlyExecuted(w, w', name) == Range(first, end)
            && (|| NewlySigned(w, w', name) == Range(first, end)
                || (!done && NewlySigned(w, w', name) == Range(first, end + 1)))
            && (done ==> end == first + Uploads(calls) + 2 * Pairs(calls))
            && (done && calls != [] ==>
                  && !d'.isFirstDeploy && d'.signer.name == name
                  && name in w'.accounts && w'.accounts[name].sequence == end - 1)
  {
    var name := d.signer.name;
    var program := [SyncAccount(name)] + calls;
    SyncedDeployListAllowedIff(BookOf(w, d), calls);
    RoomForSyncedDeploys(w, d, calls);
    AllowedProgram(env, w, d, program, w', d', done, name);
    if done && calls != [] {
      BehindByOne(w, name, w', d', FinalBook(BookOf(w, d), program));
    }
  }

  lemma BehindByOne(w: World, name: string, w': World, d': Deployer, b: Book)
    requires name in w.accounts && Extends(w, w') && BookOf(w', d') == b
    requires name in b.standing && b.standing[name].Behind?
    requires Expected(w'.ledger, w.accounts[name].address) > 0
    ensures name in w'.accounts && w'.accounts[name].sequence == Expected(w'.ledger, w.accounts[name].address) - 1
    ensures d'.isFirstDeploy == b.isFirstDeploy && d'.signer.name == b.signer
  {
    assert b.standing[name] == StandingOf(w', name);
  }

  // ----- a list that begins with a bare Upload -----

  /** A transaction at an unexpected sequence, whose bytes have not succeeded before, is never confirmed. */
  lemma UnexpectedNeverConfirmed(env: Env, w: World, name: string, msg: Msg, override: uint64)
    requires Settled(w) && name in w.accounts && msg.sender == w.accounts[name].address
    requires w.accounts[name].sequence != Expected(w.ledger, msg.sender)
    requires var s := Sign(env, w, name, msg, override);
             s.Signed? ==> forall i :: 0 <= i < |w.ledger.included| && w.ledger.included[i].tx == s.tx
                                       ==> w.ledger.included[i].result.code != 0
    ensures Submit(env, w, name, msg, override).1.Exit?
  {
    var s := Sign(env, w, name, msg, override);
    if s.Signed? {
      var w1 := w.(signed := w.signed + [SigningOf(w, s.tx)]);
      IdlePoolStaysIdle(w.ledger, env.weather(w.clock).deliveries);
      var (w2, sent) := Broadcast(env, w1, s.tx);
      assert [] + [s.tx] == [s.tx];
      if sent {
        assert w2.ledger == After(w.ledger, s.tx, Waiting);
        WaitFollowsFate(env, w2, w.ledger, s.tx, Waiting, POLLS);
      }
    }
  }

  /** In particular one signed ahead of the chain. */
  lemma AheadNeverConfirmed(env: Env, w: World, name: string, msg: Msg, override: uint64)
    requires Settled(w) && name in w.accounts && msg.sender == w.accounts[name].address
    requires w.accounts[name].sequence > Expected(w.ledger, msg.sender)
    ensures Submit(env, w, name, msg, override).1.Exit?
  {
    UnexpectedNeverConfirmed(env, w, name, msg, override);
  }

  /** From a level counter a bare Upload never returns, and the one transaction it can sign is one
      ahead of the chain. */
  lemma UploadFromLevel(env: Env, w: World, d: Deployer, file: string, gasPrice: uint64)
    requires Settled(w) && d.signer.name in w.accounts && StandingOf(w, d.signer.name).Level?
    requires Room(w, d.signer.name, 1)
    ensures var (w', r) := DoUpload(env, w, d, file, gasPrice);
            var s := FirstSigning(env, w, d, Upload(file, gasPrice));
            var expected := Expected(w.ledger, w.accounts[d.signer.name].address);
            && r.Exit?
            && (if s.Signed? then w'.signed == w.signed + [SigningOf(w, s.tx)] else w'.signed == w.signed)
            && (s.Signed? ==> s.tx.sequence == expected + 1 && SigningOf(w, s.tx).expected == expected)
  {
    var name := d.signer.name;
    var w1 := Bump(w, name);
    DeploySigns(env, w1, name, file, gasPrice);
    if env.files(w.clock, file).Some? {
      var msg := StoreCode(w1.accounts[name].address, env.files(w.clock, file).value);
      AheadNeverConfirmed(env, w1, name, msg, gasPrice);
    }
  }

  /** MAIN THEOREM. A list that begins with a bare Upload, run right after a synchronisation, never
      completes, whatever the counter and the flag were and whatever follows. If the synchronisation
      succeeds and the Upload can be signed, exactly one transaction is signed, at S + 1 where the
      chain expects S; otherwise nothing is. */
  lemma LeadingUploadIsWrong(env: Env, w: World, d: Deployer, file: string, gasPrice: uint64, rest: seq<Call>,
                             synced: World, outcome: SyncOutcome, w': World, d': Deployer, done: bool)
    requires Settled(w) && d.signer.name in w.accounts && Room(w, d.signer.name, 1)
    requires Sync(env, w, d.signer.name) == (synced, outcome)
    requires Run(env, w, d, [SyncAccount(d.signer.name), Upload(file, gasPrice)] + rest) == (w', d', done)
    ensures !done
    ensures var s := FirstSigning(env, synced, d, Upload(file, gasPrice));
            var expected := Expected(w.ledger, w.accounts[d.signer.name].address);
            if outcome.Synced? && s.Signed?
            then w'.signed == w.signed + [SigningOf(synced, s.tx)]
                 && s.tx.sequence == expected + 1 && SigningOf(synced, s.tx).expected == expected
            else w'.signed == w.signed
  {
    var name := d.signer.name;
    var program := [SyncAccount(name), Upload(file, gasPrice)] + rest;
    assert program[0] == SyncAccount(name) && program[1..] == [Upload(file, gasPrice)] + rest;
    IdlePoolStaysIdle(w.ledger, env.weather(w.clock).deliveries);
    SyncAllowed(env, w, d, name);
    if outcome.Synced? {
      assert program[1..][0] == Upload(file, gasPrice);
      UploadFromLevel(env, synced, d, file, gasPrice);
    }
  }
}
