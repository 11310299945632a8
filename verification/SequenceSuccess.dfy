/** Allowed programs do not fail on their own: when nothing refuses them, they complete. */
module SequenceSuccess {
  import opened GoWords
  import opened TxEvents
  import opened ChainModel
  import opened Submission
  import opened DeployCalls
  import opened SequenceDiscipline
  import opened SequenceTheorems
  import opened SequenceExactness

  /** A successful result from which a code id can be read. */
  predicate GoodResult(r: TxResult) {
    r.code == 0 && DetailsOf(r.events).Details? && ParseUint(DetailsOf(r.events).codeId).Some?
  }

  predicate AllGood(ds: seq<Delivery>) {
    forall i :: 0 <= i < |ds| ==> ds[i].Execute? && GoodResult(ds[i].result)
  }

  /** Some delivery takes up the transaction at the head of the pool. */
  predicate TakesHead(ds: seq<Delivery>) {
    exists i :: 0 <= i < |ds| && ds[i].index == 0
  }

  /** The SDK signs everything and every file has content, at any time. */
  ghost predicate Signs(env: Env) {
    && (forall t: nat, tx :: env.accepts(t, tx))
    && (forall t: nat, f :: env.files(t, f).Some? && env.files(t, f).value != [])
  }

  /** The reply to call `t` arrives, is positive and decodes. */
  predicate Replies(env: Env, t: nat) {
    var weather := env.weather(t);
    weather.transport && weather.code == 0 && weather.decodes
  }

  /** Some call among the next thirty finds that the chain has taken up the head of its pool. */
  ghost predicate TakenUpWithin(env: Env, t: nat) {
    exists s: nat :: t <= s < t + 30 && TakesHead(env.weather(s).deliveries)
  }

  /** Nothing is refused: everything is signed, every reply is good, the chain executes with good
      results whatever it takes up, in any order, and within the polls of one wait it takes up the head
      of its pool. When it does so, and with which results and ids, is left open. */
  ghost predicate Cooperative(env: Env) {
    && Signs(env)
    && (forall t: nat :: Replies(env, t))
    && (forall t: nat :: AllGood(env.weather(t).deliveries))
    && (forall t: nat :: TakenUpWithin(env, t))
  }

  /** Arguments that no environment refuses. */
  predicate WellFormed(w: World, c: Call) {
    match c
    case SyncAccount(name) => name in w.accounts
    case Upload(_, gasPrice) => gasPrice < TWO_63
    case UploadAndInstantiate(payload, _, gasPrice) => payload.Some? && gasPrice < TWO_63
    case _ => true
  }

  /** Good deliveries execute a lone transaction with the expected sequence as soon as one of them
      takes the head of the pool, and leave it waiting until then. */
  lemma {:induction false} GoodFate(l: Ledger, tx: Tx, ds: seq<Delivery>)
    requires AllGood(ds) && tx.sequence == Expected(l, tx.msg.sender)
    ensures var f := FateAfter(l, tx, Waiting, ds);
            if TakesHead(ds) then f.Executed? && GoodResult(f.result) else f == Waiting
  {
    if ds != [] && ds[0].index != 0 {
      GoodFate(l, tx, ds[1..]);
      assert TakesHead(ds) ==> TakesHead(ds[1..]) by {
        if i :| 0 <= i < |ds| && ds[i].index == 0 {
          assert ds[1..][i - 1] == ds[i];
        }
      }
      assert TakesHead(ds[1..]) ==> TakesHead(ds) by {
        if i :| 0 <= i < |ds[1..]| && ds[1..][i].index == 0 {
          assert ds[i + 1].index == 0;
        }
      }
    }
  }

  /** One poll for a new transaction that is still waiting. */
  lemma PollGood(env: Env, w: World, l: Ledger, tx: Tx)
    requires Replies(env, w.clock) && AllGood(env.weather(w.clock).deliveries)
    requires l.pool == [] && w.ledger == After(l, tx, Waiting) && tx.sequence == Expected(l, tx.msg.sender)
    requires forall i :: 0 <= i < |l.included| ==> l.included[i].tx != tx
    ensures var (w', answer) := Poll(env, w, tx);
            && w'.clock == w.clock + 1
            && if TakesHead(env.weather(w.clock).deliveries) then answer.Some? && GoodResult(answer.value)
               else answer == None && w'.ledger == After(l, tx, Waiting)
  {
    var ds := env.weather(w.clock).deliveries;
    AdvanceLone(l, tx, Waiting, ds);
    GoodFate(l, tx, ds);
    LookupByFate(l, tx, FateAfter(l, tx, Waiting, ds));
  }

  /** Polling a new transaction succeeds if one of the polls left comes after the chain took it up. */
  lemma {:induction false} WaitSucceeds(env: Env, w: World, l: Ledger, tx: Tx, n: nat, s: nat)
    requires Cooperative(env) && l.pool == [] && w.ledger == After(l, tx, Waiting)
    requires tx.sequence == Expected(l, tx.msg.sender)
    requires forall i :: 0 <= i < |l.included| ==> l.included[i].tx != tx
    requires w.clock <= s < w.clock + n && TakesHead(env.weather(s).deliveries)
    ensures var (_, r) := Wait(env, w, tx, n); r.Ok? && GoodResult(r.value)
    decreases n
  {
    assert Replies(env, w.clock) && AllGood(env.weather(w.clock).deliveries);
    PollGood(env, w, l, tx);
    var (w1, answer) := Poll(env, w, tx);
    if answer.None? {
      WaitSucceeds(env, w1, l, tx, n - 1, s);
    }
  }

  lemma SubmitCooperative(env: Env, w: World, name: string, msg: Msg, override: uint64)
    requires Cooperative(env) && Settled(w) && NoneAhead(w.ledger) && override < TWO_63
    requires name in w.accounts && msg.sender == w.accounts[name].address && StandingOf(w, name).Level?
    ensures var (_, r) := Submit(env, w, name, msg, override); r.Ok? && GoodResult(r.value)
  {
    assert w.keyring[w.accounts[name].address] == name;
    assert name in w.keyring.Values;
    var tx := Sign(env, w, name, msg, override).tx;
    var w1 := w.(signed := w.signed + [SigningOf(w, tx)]);
    assert Replies(env, w.clock);
    var (w2, sent) := Broadcast(env, w1, tx);
    IdlePoolStaysIdle(w.ledger, env.weather(w.clock).deliveries);
    assert [] + [tx] == [tx];
    assert sent && w2.ledger == After(w.ledger, tx, Waiting);
    assert TakenUpWithin(env, w2.clock);
    var s: nat :| w2.clock <= s < w2.clock + POLLS && TakesHead(env.weather(s).deliveries);
    WaitSucceeds(env, w2, w.ledger, tx, POLLS, s);
  }

  lemma StoreCooperative(env: Env, w: World, name: string, file: string, gasPrice: uint64)
    requires Cooperative(env) && Settled(w) && NoneAhead(w.ledger) && gasPrice < TWO_63
    requires name in w.accounts && StandingOf(w, name).Level?
    ensures var (_, r) := DeployContract(env, w, name, file, gasPrice); r.Ok? && GoodResult(r.value)
  {
    SubmitCooperative(env, w, name, StoreCode(w.accounts[name].address, env.files(w.clock, file).value), gasPrice);
  }

  lemma UploadCooperative(env: Env, w: World, d: Deployer, file: string, gasPrice: uint64)
    requires Cooperative(env) && Settled(w) && NoneAhead(w.ledger) && gasPrice < TWO_63
    requires d.signer.name in w.accounts && StandingOf(w, d.signer.name).Behind?
    ensures DoUpload(env, w, d, file, gasPrice).1.Ok?
  {
    BumpLevels(w, d.signer.name);
    StoreCooperative(env, Bump(w, d.signer.name), d.signer.name, file, gasPrice);
  }

  lemma FinishCooperative(env: Env, w: World, d: Deployer, codeId: uint64, payload: bytes)
    requires Cooperative(env) && Settled(w) && NoneAhead(w.ledger)
    requires d.signer.name in w.accounts && !d.isFirstDeploy && StandingOf(w, d.signer.name).Behind?
    ensures FinishPair(env, w, d, codeId, payload).2.Ok?
  {
    var name := d.signer.name;
    BumpLevels(w, name);
    var w1 := Bump(w, name);
    var msg := Instantiate(w1.accounts[name].address, codeId, payload);
    SubmitCooperative(env, w1, name, msg, INSTANTIATE_GAS_PRICE);
  }

  lemma PairCooperative(env: Env, w: World, d: Deployer, payload: Option<bytes>, file: string, gasPrice: uint64)
    requires Cooperative(env) && Settled(w) && NoneAhead(w.ledger) && payload.Some? && gasPrice < TWO_63
    requires d.signer.name in w.accounts && Room(w, d.signer.name, 2)
    requires StandingOf(w, d.signer.name) == if d.isFirstDeploy then Level else Behind
    ensures DoUploadAndInstantiate(env, w, d, payload, file, gasPrice).2.Ok?
  {
    IncreaseLevels(w, d);
    var (w1, d1, _) := IncreaseSequence(w, d);
    StoreCooperative(env, w1, d.signer.name, file, gasPrice);
    StoreReady(env, w, d, file, gasPrice);
    var (w2, codeId) := StoreStage(env, w1, d.signer.name, file, gasPrice);
    FinishCooperative(env, w2, d1, codeId.value, payload.value);
  }

  lemma StepCooperative(env: Env, w: World, d: Deployer, c: Call)
    requires Cooperative(env) && Settled(w) && NoneAhead(w.ledger) && WellFormed(w, c)
    requires Allowed(BookOf(w, d), c) && Room(w, d.signer.name, Weight(BookOf(w, d), c, d.signer.name))
    ensures Step(env, w, d, c).2
  {
    match c
    case SyncAccount(_) => assert Replies(env, w.clock);
    case SetAccount(_) =>
    case SetFirstDeploy(_) =>
    case Upload(file, gasPrice) => UploadCooperative(env, w, d, file, gasPrice);
    case UploadAndInstantiate(payload, file, gasPrice) => PairCooperative(env, w, d, payload, file, gasPrice);
  }

  lemma {:induction false} AllowedCompletes(env: Env, w: World, d: Deployer, calls: seq<Call>)
    requires Cooperative(env) && Settled(w) && NoneAhead(w.ledger) && RoomFor(w, d, calls)
    requires AllAllowed(BookOf(w, d), calls) && forall c :: c in calls ==> WellFormed(w, c)
    ensures Run(env, w, d, calls).2
    decreases |calls|
  {
    if calls != [] {
      RoomForFirst(w, d, calls);
      StepCooperative(env, w, d, calls[0]);
      StepAllowed(env, w, d, calls[0]);
      var (w1, d1, _) := Step(env, w, d, calls[0]);
      RoomForRest(w, d, calls, w1, d1);
      forall c | c in calls[1..] ensures WellFormed(w1, c) {
        assert WellFormed(w, c);
      }
      AllowedCompletes(env, w1, d1, calls[1..]);
    }
  }

  /** MAIN THEOREM. In a cooperative environment, and with no old refusal on record for a sequence to
      come, a program completes with right signings only if and only if the guard allows it. */
  lemma CooperativeProgramSucceedsIffAllowed(env: Env, w: World, d: Deployer, calls: seq<Call>)
    requires Cooperative(env) && Settled(w) && NoneAhead(w.ledger) && RoomFor(w, d, calls)
    requires forall c :: c in calls ==> WellFormed(w, c)
    ensures var (w', _, done) := Run(env, w, d, calls);
            done && AllRightFrom(w', |w.signed|) <==> AllAllowed(BookOf(w, d), calls)
  {
    if Run(env, w, d, calls).2 {
      CompletedProgramRightIffAllowed(env, w, d, calls);
    } else if AllAllowed(BookOf(w, d), calls) {
      AllowedCompletes(env, w, d, calls);
    }
  }

  /** Every signer the program works with has an account. */
  ghost predicate KnownSigners(w: World, d: Deployer, calls: seq<Call>) {
    && d.signer.name in w.accounts
    && forall c :: c in calls && c.SetAccount? ==> c.signer.name in w.accounts
  }

  lemma CooperativeSigns(env: Env, w: World, d: Deployer, c: Call)
    requires Signs(env) && OwnAddresses(w) && WellFormed(w, c) && d.signer.name in w.accounts && Deploys(c)
    ensures FirstSigning(env, w, d, c).Signed?
  {
    var name := d.signer.name;
    assert w.keyring[w.accounts[name].address] == name;
    assert name in w.keyring.Values;
  }

  lemma {:induction false} RefusedIsReached(env: Env, w: World, d: Deployer, calls: seq<Call>, k: nat,
                                            wk: World, dk: Deployer, reached: bool)
    requires Cooperative(env) && Settled(w) && NoneAhead(w.ledger) && RoomFor(w, d, calls)
    requires KnownSigners(w, d, calls) && forall c :: c in calls ==> WellFormed(w, c)
    requires k == FirstRefused(BookOf(w, d), calls) < |calls|
    requires Run(env, w, d, calls[..k]) == (wk, dk, reached)
    ensures reached && FirstSigning(env, wk, dk, calls[k]).Signed?
    decreases |calls|
  {
    assert calls[0] in calls;
    if k == 0 {
      CooperativeSigns(env, w, d, calls[0]);
    } else {
      var prefix := calls[..k];
      assert prefix[0] == calls[0] && prefix[1..] == calls[1..][..k - 1];
      RoomForFirst(w, d, calls);
      StepCooperative(env, w, d, calls[0]);
      StepAllowed(env, w, d, calls[0]);
      var (w1, d1, _) := Step(env, w, d, calls[0]);
      RoomForRest(w, d, calls, w1, d1);
      assert BookOf(w1, d1).signer == d1.signer.name;
      forall c | c in calls[1..] ensures WellFormed(w1, c) && (c.SetAccount? ==> c.signer.name in w1.accounts) {
        assert c in calls && WellFormed(w, c);
      }
      RefusedIsReached(env, w1, d1, calls[1..], k - 1, wk, dk, reached);
    }
  }

  /** MAIN THEOREM. If moreover all signers are known, the signatures alone tell: a program signs only
      right transactions if and only if the guard allows it. An allowed one completes; of any other the
      first refused call is reached and signs something wrong, whether the process survives it or not. */
  lemma CooperativeProgramRightIffAllowed(env: Env, w: World, d: Deployer, calls: seq<Call>)
    requires Cooperative(env) && Settled(w) && NoneAhead(w.ledger) && RoomFor(w, d, calls)
    requires KnownSigners(w, d, calls) && forall c :: c in calls ==> WellFormed(w, c)
    ensures AllRightFrom(Run(env, w, d, calls).0, |w.signed|) <==> AllAllowed(BookOf(w, d), calls)
    ensures AllAllowed(BookOf(w, d), calls) ==> Run(env, w, d, calls).2
  {
    var k := FirstRefused(BookOf(w, d), calls);
    var (wk, dk, reached) := Run(env, w, d, calls[..k]);
    RunWrongIffRefusedCallSigns(env, w, d, calls, k, wk, dk, reached);
    if k < |calls| {
      RefusedIsReached(env, w, d, calls, k, wk, dk, reached);
    } else {
      AllowedCompletes(env, w, d, calls);
    }
  }

  /** Environments of this kind exist: for instance one that executes the head of the pool at every
      call. Results and ids may differ from call to call. */
  lemma PromptIsCooperative(env: Env)
    requires Signs(env)
    requires forall t: nat :: env.weather(t).deliveries != [] && env.weather(t).deliveries[0].index == 0
    requires forall t: nat :: Replies(env, t) && AllGood(env.weather(t).deliveries)
    ensures Cooperative(env)
  {
    forall t: nat ensures TakenUpWithin(env, t) {
      assert env.weather(t).deliveries[0].index == 0;
      assert TakesHead(env.weather(t).deliveries);
    }
  }
}
