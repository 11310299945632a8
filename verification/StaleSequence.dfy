/** Completing is not enough: a stale sequence can go unnoticed if the node takes the same bytes twice. */
module StaleSequence {
  import opened GoWords
  import opened ChainModel
  import opened Submission
  import opened DeployCalls
  import opened SequenceDiscipline
  import opened SequenceTheorems
  import opened SequenceExactness
  import opened SequenceSuccess

  /** At call `t` the chain takes up the head of its pool, with a good result if it executes it. */
  predicate TakenUpAt(env: Env, t: nat) {
    AllGood(env.weather(t).deliveries) && TakesHead(env.weather(t).deliveries)
  }

  /** The node took the broadcast of call `t` into its pool and said so. */
  predicate Takes(env: Env, t: nat) {
    env.weather(t).transport && env.weather(t).code == 0
  }

  /** A prompt environment that signs and serves everything, except that call `t` may be turned down. */
  ghost predicate PromptExcept(env: Env, t: nat) {
    && Signs(env)
    && (forall i: nat :: TakenUpAt(env, i))
    && (forall i: nat :: i != t ==> Replies(env, i))
  }

  /** A submission from a level counter takes two calls, both answered. */
  lemma PromptSubmit(env: Env, w: World, name: string, msg: Msg, override: uint64)
    requires Signs(env) && Replies(env, w.clock) && Replies(env, w.clock + 1) && TakenUpAt(env, w.clock + 1)
    requires Settled(w) && NoneAhead(w.ledger) && Room(w, name, 1) && override < TWO_63
    requires name in w.accounts && msg.sender == w.accounts[name].address && StandingOf(w, name).Level?
    ensures var (w', r) := Submit(env, w, name, msg, override);
            var s := Sign(env, w, name, msg, override);
            && r.Ok? && GoodResult(r.value) && w'.clock == w.clock + 2
            && Settled(w') && NoneAhead(w'.ledger) && w'.accounts == w.accounts
            && s.Signed? && w'.ledger == After(w.ledger, s.tx, Executed(r.value))
  {
    assert w.keyring[w.accounts[name].address] == name;
    assert name in w.keyring.Values;
    var tx := Sign(env, w, name, msg, override).tx;
    var w1 := w.(signed := w.signed + [SigningOf(w, tx)]);
    IdlePoolStaysIdle(w.ledger, env.weather(w.clock).deliveries);
    var (w2, sent) := Broadcast(env, w1, tx);
    assert [] + [tx] == [tx];
    assert sent && w2.ledger == After(w.ledger, tx, Waiting);
    PollGood(env, w2, w.ledger, tx);
    var (w3, answer) := Poll(env, w2, tx);
    assert Wait(env, w2, tx, POLLS) == (w3, Ok(answer.value));
    SubmitRight(env, w, name, msg, override);
    SubmitSigns(env, w, name, msg, override);
    var (w', _) := Submit(env, w, name, msg, override);
    assert w'.signed[|w.signed|] == SigningOf(w, tx);
    ExecutedStaysPast(w.ledger, tx, answer.value);
  }

  /** A lone transaction with an unexpected sequence is refused once taken up. */
  lemma {:induction false} UnexpectedFate(l: Ledger, tx: Tx, ds: seq<Delivery>)
    requires AllGood(ds) && TakesHead(ds) && tx.sequence != Expected(l, tx.msg.sender)
    ensures FateAfter(l, tx, Waiting, ds) == Refused(WRONG_SEQUENCE)
  {
    if ds[0].index != 0 {
      var i :| 0 <= i < |ds| && ds[i].index == 0;
      assert ds[1..][i - 1] == ds[i];
      UnexpectedFate(l, tx, ds[1..]);
    }
  }

  /** One poll for bytes broadcast again after they were executed with result `r0`: the copy is refused,
      and the answer is the earlier result. */
  lemma StalePoll(env: Env, w: World, l: Ledger, tx: Tx, r0: TxResult)
    requires TakenUpAt(env, w.clock) && Replies(env, w.clock)
    requires l.pool == [] && NoneAhead(l) && tx.sequence == Expected(l, tx.msg.sender) && tx.sequence + 1 < TWO_64
    requires w.ledger == After(After(l, tx, Executed(r0)), tx, Waiting)
    ensures var (w', answer) := Poll(env, w, tx);
            && answer == Some(r0)
            && w'.ledger == After(After(l, tx, Executed(r0)), tx, Refused(WRONG_SEQUENCE))
  {
    var now := After(l, tx, Executed(r0));
    var ds := env.weather(w.clock).deliveries;
    AdvanceLone(now, tx, Waiting, ds);
    UnexpectedFate(now, tx, ds);
    LookupByFate(l, tx, Executed(r0));
    LookupAppend(now.included, Inclusion(tx, TxResult(WRONG_SEQUENCE, []), false), tx);
  }

  /** Signing and broadcasting again the very bytes just executed: if the node takes them, the first
      poll finds the earlier result; if not, the process ends. */
  lemma StaleSubmit(env: Env, w: World, name: string, msg: Msg, override: uint64, tx: Tx, l: Ledger, r0: TxResult)
    requires Replies(env, w.clock + 1) && TakenUpAt(env, w.clock + 1)
    requires Settled(w) && NoneAhead(w.ledger)
    requires Sign(env, w, name, msg, override) == Signed(tx)
    requires l.pool == [] && NoneAhead(l) && tx.sequence == Expected(l, tx.msg.sender)
    requires tx.sequence + 1 < TWO_64 && w.ledger == After(l, tx, Executed(r0)) && GoodResult(r0)
    ensures var (w', r) := Submit(env, w, name, msg, override);
            if !Takes(env, w.clock) then r.Exit?
            else r == Ok(r0) && Settled(w') && NoneAhead(w'.ledger) && w'.accounts == w.accounts
                 && w'.ledger.expected == w.ledger.expected && w'.clock == w.clock + 2
  {
    var w1 := w.(signed := w.signed + [SigningOf(w, tx)]);
    IdlePoolStaysIdle(w.ledger, env.weather(w.clock).deliveries);
    var (w2, sent) := Broadcast(env, w1, tx);
    assert [] + [tx] == [tx];
    if sent {
      assert w2.ledger == After(w.ledger, tx, Waiting);
      StalePoll(env, w2, l, tx, r0);
      var (w3, _) := Poll(env, w2, tx);
      assert Wait(env, w2, tx, POLLS) == (w3, Ok(r0));
    }
  }

  /** Signing other bytes at the sequence just executed: the process ends. */
  lemma StaleOtherBytes(env: Env, w: World, name: string, msg: Msg, override: uint64, tx: Tx, l: Ledger, r0: TxResult)
    requires Settled(w) && name in w.accounts && msg.sender == w.accounts[name].address
    requires NoneAhead(l) && tx.sequence + 1 < TWO_64 && w.ledger == After(l, tx, Executed(r0))
    requires tx.msg.sender == msg.sender && tx.msg != msg
    requires w.accounts[name].sequence == tx.sequence == Expected(l, msg.sender)
    ensures Submit(env, w, name, msg, override).1.Exit?
  {
    var included := w.ledger.included;
    assert included[|l.included|].tx == tx;
    forall i | 0 <= i < |l.included|
      ensures included[i].tx.sequence != tx.sequence || included[i].tx.msg.sender != msg.sender
    {
      assert included[i] == l.included[i];
    }
    UnexpectedNeverConfirmed(env, w, name, msg, override);
  }

  /** The file has the same content when it is read again two calls later. */
  predicate Unchanged(env: Env, t: nat, file: string) {
    env.files(t, file) == env.files(t + 2, file)
  }

  /** A first store from a counter one behind, in a prompt environment. */
  lemma FirstStore(env: Env, w: World, name: string, file: string, gasPrice: uint64)
    requires PromptExcept(env, w.clock + 2)
    requires Settled(w) && NoneAhead(w.ledger) && Room(w, name, 2) && gasPrice < TWO_63
    requires name in w.accounts && StandingOf(w, name).Behind?
    ensures var w0 := Bump(w, name);
            var msg := StoreCode(w.accounts[name].address, env.files(w.clock, file).value);
            var s := Sign(env, w0, name, msg, gasPrice);
            var (w1, r1) := DeployContract(env, w0, name, file, gasPrice);
            && s.Signed? && r1.Ok? && GoodResult(r1.value) && w1.clock == w.clock + 2
            && Settled(w1) && NoneAhead(w1.ledger) && w1.accounts == w0.accounts && w1.keyring == w.keyring
            && s.tx.sequence == Expected(w.ledger, msg.sender)
            && w1.ledger == After(w.ledger, s.tx, Executed(r1.value))
  {
    BumpLevels(w, name);
    var w0 := Bump(w, name);
    var msg := StoreCode(w0.accounts[name].address, env.files(w0.clock, file).value);
    PromptSubmit(env, w0, name, msg, gasPrice);
    SubmitShape(env, w0, name, msg, gasPrice);
  }

  /** A second store of the unchanged file, without a bump. */
  lemma SecondStoreSame(env: Env, w: World, name: string, file: string, gasPrice: uint64)
    requires PromptExcept(env, w.clock + 2) && Unchanged(env, w.clock, file)
    requires Settled(w) && NoneAhead(w.ledger) && Room(w, name, 2) && gasPrice < TWO_63
    requires name in w.accounts && StandingOf(w, name).Behind?
    ensures var (w1, r1) := DeployContract(env, Bump(w, name), name, file, gasPrice);
            var (w2, r) := DeployContract(env, w1, name, file, gasPrice);
            if !Takes(env, w.clock + 2) then r.Exit?
            else r == r1 && w2.clock == w.clock + 4 && Settled(w2) && NoneAhead(w2.ledger) && Room(w2, name, 1)
                 && name in w2.accounts && StandingOf(w2, name).Behind?
  {
    FirstStore(env, w, name, file, gasPrice);
    var w0 := Bump(w, name);
    var (w1, r1) := DeployContract(env, w0, name, file, gasPrice);
    var msg := StoreCode(w.accounts[name].address, env.files(w.clock, file).value);
    var tx := Sign(env, w0, name, msg, gasPrice).tx;
    assert Sign(env, w1, name, msg, gasPrice) == Signed(tx);
    StaleSubmit(env, w1, name, msg, gasPrice, tx, w.ledger, r1.value);
  }

  /** A second store of the file after it changed. */
  lemma SecondStoreOther(env: Env, w: World, name: string, file: string, gasPrice: uint64)
    requires PromptExcept(env, w.clock + 2) && !Unchanged(env, w.clock, file)
    requires Settled(w) && NoneAhead(w.ledger) && Room(w, name, 2) && gasPrice < TWO_63
    requires name in w.accounts && StandingOf(w, name).Behind?
    ensures var (w1, _) := DeployContract(env, Bump(w, name), name, file, gasPrice);
            DeployContract(env, w1, name, file, gasPrice).1.Exit?
  {
    FirstStore(env, w, name, file, gasPrice);
    var w0 := Bump(w, name);
    var (w1, r1) := DeployContract(env, w0, name, file, gasPrice);
    var msg := StoreCode(w.accounts[name].address, env.files(w.clock, file).value);
    var msg1 := StoreCode(w.accounts[name].address, env.files(w1.clock, file).value);
    var tx := Sign(env, w0, name, msg, gasPrice).tx;
    assert env.files(w.clock, file).Some? && env.files(w1.clock, file).Some?;
    StaleOtherBytes(env, w1, name, msg1, gasPrice, tx, w.ledger, r1.value);
  }

  /** Storing a file, then storing it again without a bump. */
  lemma StaleStore(env: Env, w: World, name: string, file: string, gasPrice: uint64)
    requires PromptExcept(env, w.clock + 2)
    requires Settled(w) && NoneAhead(w.ledger) && Room(w, name, 2) && gasPrice < TWO_63
    requires name in w.accounts && StandingOf(w, name).Behind?
    ensures var (w1, r1) := DeployContract(env, Bump(w, name), name, file, gasPrice);
            var (w2, r) := DeployContract(env, w1, name, file, gasPrice);
            && r1.Ok? && GoodResult(r1.value) && w1.clock == w.clock + 2 && name in w1.accounts
            && if !Takes(env, w.clock + 2) || !Unchanged(env, w.clock, file) then r.Exit?
               else r == r1 && w2.clock == w.clock + 4 && Settled(w2) && NoneAhead(w2.ledger) && Room(w2, name, 1)
                    && name in w2.accounts && StandingOf(w2, name).Behind?
  {
    FirstStore(env, w, name, file, gasPrice);
    if Unchanged(env, w.clock, file) {
      SecondStoreSame(env, w, name, file, gasPrice);
    } else {
      SecondStoreOther(env, w, name, file, gasPrice);
    }
  }

  /** The second half of the stale pair. */
  lemma FinishPrompt(env: Env, w: World, d: Deployer, codeId: uint64, payload: bytes)
    requires Signs(env) && Replies(env, w.clock) && Replies(env, w.clock + 1) && TakenUpAt(env, w.clock + 1)
    requires Settled(w) && NoneAhead(w.ledger) && Room(w, d.signer.name, 1)
    requires d.signer.name in w.accounts && !d.isFirstDeploy && StandingOf(w, d.signer.name).Behind?
    ensures FinishPair(env, w, d, codeId, payload).2.Ok?
  {
    var name := d.signer.name;
    BumpLevels(w, name);
    var w1 := Bump(w, name);
    var msg := Instantiate(w1.accounts[name].address, codeId, payload);
    PromptSubmit(env, w1, name, msg, INSTANTIATE_GAS_PRICE);
  }

  /** The program: upload a file, set the flag again, deploy the same file at the same gas price. */
  function StaleProgram(payload: bytes, file: string, gasPrice: uint64): seq<Call> {
    [Upload(file, gasPrice), SetFirstDeploy(true), UploadAndInstantiate(Some(payload), file, gasPrice)]
  }

  lemma RunOfThree(env: Env, w: World, d: Deployer, c1: Call, c2: Call, c3: Call,
                   w1: World, d1: Deployer, w2: World, d2: Deployer)
    requires Step(env, w, d, c1) == (w1, d1, true) && Step(env, w1, d1, c2) == (w2, d2, true)
    ensures Run(env, w, d, [c1, c2]) == (w2, d2, true)
    ensures Run(env, w, d, [c1, c2, c3]) == Step(env, w2, d2, c3)
  {
    assert [c1, c2][1..] == [c2] && [c2][1..] == [];
    assert [c1, c2, c3][1..] == [c2, c3] && [c2, c3][1..] == [c3] && [c3][1..] == [];
    var (w3, d3, goesOn) := Step(env, w2, d2, c3);
    assert Run(env, w2, d2, [c3]) == (w3, d3, goesOn);
    assert Run(env, w1, d1, [c2, c3]) == Run(env, w2, d2, [c3]);
    assert Run(env, w1, d1, [c2]) == Run(env, w2, d2, []);
  }

  lemma StalePairCompletesIff(env: Env, w: World, d: Deployer, payload: bytes, file: string, gasPrice: uint64)
    requires PromptExcept(env, w.clock + 2)
    requires Settled(w) && NoneAhead(w.ledger) && Room(w, d.signer.name, 2) && gasPrice < TWO_63
    requires d.signer.name in w.accounts && StandingOf(w, d.signer.name).Behind? && d.isFirstDeploy
    ensures var (w1, id) := DoUpload(env, w, d, file, gasPrice);
            && id.Ok?
            && (DoUploadAndInstantiate(env, w1, d, Some(payload), file, gasPrice).2.Ok? <==>
                Takes(env, w.clock + 2) && Unchanged(env, w.clock, file))
  {
    StaleStore(env, w, d.signer.name, file, gasPrice);
    var (w1, _) := DoUpload(env, w, d, file, gasPrice);
    var (w2, codeId) := StoreStage(env, w1, d.signer.name, file, gasPrice);
    if codeId.Ok? {
      FinishPrompt(env, w2, d.(isFirstDeploy := false), codeId.value, payload);
    }
  }

  lemma StaleProgramRuns(env: Env, w: World, d: Deployer, payload: bytes, file: string, gasPrice: uint64)
    requires PromptExcept(env, w.clock + 2)
    requires Settled(w) && NoneAhead(w.ledger) && Room(w, d.signer.name, 2) && gasPrice < TWO_63
    requires d.signer.name in w.accounts && StandingOf(w, d.signer.name).Behind?
    ensures var (w1, id) := DoUpload(env, w, d, file, gasPrice);
            var d1 := d.(isFirstDeploy := true);
            && id.Ok?
            && Run(env, w, d, StaleProgram(payload, file, gasPrice)[..2]) == (w1, d1, true)
            && Run(env, w, d, StaleProgram(payload, file, gasPrice)).2 ==
               (Takes(env, w.clock + 2) && Unchanged(env, w.clock, file))
  {
    var calls := StaleProgram(payload, file, gasPrice);
    var d1 := d.(isFirstDeploy := true);
    StalePairCompletesIff(env, w, d1, payload, file, gasPrice);
    var (w1, _) := DoUpload(env, w, d, file, gasPrice);
    assert DoUpload(env, w, d1, file, gasPrice) == DoUpload(env, w, d, file, gasPrice);
    RunOfThree(env, w, d, calls[0], calls[1], calls[2], w1, d, w1, d1);
    assert calls[..2] == [calls[0], calls[1]] && calls == [calls[0], calls[1], calls[2]];
  }

  /** MAIN THEOREM. After an Upload of a file, a program that sets the flag again and deploys the same
      file at the same gas price always signs a stale sequence. In an otherwise prompt environment it
      completes, unnoticed, if and only if the file has not changed in between and the node takes the
      bytes, which the chain has already executed, into its pool again: the wait then finds the earlier
      result under their hash. A node that still remembers them answers with an error, and a changed
      file makes other bytes, which are refused; either way the process ends. */
  lemma StaleSequenceGoesUnnoticedIffTakenAgain(env: Env, w: World, d: Deployer,
                                                payload: bytes, file: string, gasPrice: uint64)
    requires PromptExcept(env, w.clock + 2)
    requires Settled(w) && NoneAhead(w.ledger) && Room(w, d.signer.name, 2) && gasPrice < TWO_63
    requires d.signer.name in w.accounts && StandingOf(w, d.signer.name).Behind?
    ensures var (w', _, done) := Run(env, w, d, StaleProgram(payload, file, gasPrice));
            && !AllRightFrom(w', |w.signed|)
            && (done <==> Takes(env, w.clock + 2) && Unchanged(env, w.clock, file))
  {
    var calls := StaleProgram(payload, file, gasPrice);
    var b := BookOf(w, d);
    StaleProgramRuns(env, w, d, payload, file, gasPrice);
    StaleBook(b, payload, file, gasPrice);
    var (w1, _) := DoUpload(env, w, d, file, gasPrice);
    var d1 := d.(isFirstDeploy := true);
    assert RoomFor(w, d, calls) by {
      forall n | n in w.accounts ensures Expected(w.ledger, w.accounts[n].address) + Total(b, calls, n) < TWO_64 {
        StaleTotal(b, payload, file, gasPrice, n);
      }
    }
    RunWrongIffRefusedCallSigns(env, w, d, calls, 2, w1, d1, true);
    UploadKeepsAccounts(env, w, d, file, gasPrice);
    CooperativeSigns(env, w1, d1, calls[2]);
  }

  /** The guard refuses exactly the third call. */
  lemma StaleBook(b: Book, payload: bytes, file: string, gasPrice: uint64)
    requires b.signer in b.standing && b.standing[b.signer].Behind?
    ensures FirstRefused(b, StaleProgram(payload, file, gasPrice)) == 2
  {
    var calls := StaleProgram(payload, file, gasPrice);
    assert calls[1..][1..] == [calls[2]];
    assert !Allowed(b.(isFirstDeploy := true), calls[2]);
    assert FirstRefused(b.(isFirstDeploy := true), [calls[2]]) == 0;
    assert FirstRefused(b, calls[1..]) == 1;
  }

  lemma StaleTotal(b: Book, payload: bytes, file: string, gasPrice: uint64, n: string)
    requires b.signer in b.standing && b.standing[b.signer].Behind?
    ensures Total(b, StaleProgram(payload, file, gasPrice), n) == if n == b.signer then 1 else 0
  {
    var calls := StaleProgram(payload, file, gasPrice);
    assert calls[1..][1..] == [calls[2]];
    assert !Allowed(b.(isFirstDeploy := true), calls[2]);
    assert Total(b.(isFirstDeploy := true), [calls[2]], n) == 0;
    assert Total(b, calls[1..], n) == 0;
  }

  lemma UploadKeepsAccounts(env: Env, w: World, d: Deployer, file: string, gasPrice: uint64)
    requires Settled(w) && Room(w, d.signer.name, 1)
    requires d.signer.name in w.accounts && StandingOf(w, d.signer.name).Behind?
    ensures var (w1, id) := DoUpload(env, w, d, file, gasPrice);
            id.Ok? ==> OwnAddresses(w1) && d.signer.name in w1.accounts
  {
    UploadLands(env, w, d, file, gasPrice);
  }
}
