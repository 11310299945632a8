/** The two deployers do part: an instantiate result without a code id stops one and not the other. */
module AndromedaDivergence {
  import opened GoWords
  import opened TxEvents
  import opened ChainModel
  import opened Submission
  import DeployCalls
  import opened SequenceDiscipline
  import opened SequenceTheorems
  import opened SequenceSuccess
  import opened StaleSequence
  import opened Andromeda

  /** A successful instantiate result that names the new contract but no code id. */
  const NO_ID: TxResult := TxResult(0, [Event("instantiate", [Attribute("_contract_address", "x")])])

  lemma NoIdDetails()
    ensures DetailsOf(NO_ID.events) == Details("", "x") && ParseUint("") == None
  {
    var attributes := NO_ID.events[0].attributes;
    assert attributes[..0] == [];
    assert LastValue(attributes, "code_id") == "";
    assert LastValue(attributes, "_contract_address") == "x";
  }

  /** A submission from a level counter, taken up at its first poll, yields the result of that. */
  lemma SubmitYields(env: Env, w: World, name: string, msg: Msg, override: uint64, r: TxResult)
    requires Signs(env) && Replies(env, w.clock) && Replies(env, w.clock + 1)
    requires env.weather(w.clock + 1).deliveries == [Execute(0, r)] && r.code == 0
    requires Settled(w) && NoneAhead(w.ledger) && override < TWO_63
    requires name in w.accounts && msg.sender == w.accounts[name].address && StandingOf(w, name).Level?
    ensures Submit(env, w, name, msg, override).1 == Ok(r)
  {
    assert w.keyring[w.accounts[name].address] == name;
    assert name in w.keyring.Values;
    var tx := Sign(env, w, name, msg, override).tx;
    var w1 := w.(signed := w.signed + [SigningOf(w, tx)]);
    IdlePoolStaysIdle(w.ledger, env.weather(w.clock).deliveries);
    var (w2, sent) := Broadcast(env, w1, tx);
    assert [] + [tx] == [tx];
    assert sent && w2.ledger == After(w.ledger, tx, Waiting);
    AdvanceLone(w.ledger, tx, Waiting, [Execute(0, r)]);
    LookupByFate(w.ledger, tx, Executed(r));
    var (w3, answer) := Poll(env, w2, tx);
    assert Wait(env, w2, tx, POLLS) == (w3, Ok(r));
  }

  /** Four answered calls: the store transaction is taken up with a good result, the instantiate
      transaction with one that carries no code id. */
  ghost predicate NoIdAtFourth(env: Env, t: nat) {
    && Signs(env)
    && Replies(env, t) && Replies(env, t + 1) && Replies(env, t + 2) && Replies(env, t + 3)
    && TakenUpAt(env, t + 1) && env.weather(t + 3).deliveries == [Execute(0, NO_ID)]
  }

  lemma InstantiateYieldsNoId(env: Env, w: World, name: string, codeId: uint64, payload: bytes)
    requires Signs(env) && Replies(env, w.clock) && Replies(env, w.clock + 1)
    requires env.weather(w.clock + 1).deliveries == [Execute(0, NO_ID)]
    requires Settled(w) && NoneAhead(w.ledger) && name in w.accounts && StandingOf(w, name).Level?
    ensures DeployCalls.InstantiateStage(env, w, name, codeId, payload).1 == Ok(Details("", "x"))
  {
    NoIdDetails();
    var msg := Instantiate(w.accounts[name].address, codeId, payload);
    SubmitYields(env, w, name, msg, INSTANTIATE_GAS_PRICE, NO_ID);
  }

  /** The store transaction of the first pair. */
  lemma StoreGoesThrough(env: Env, w: World, name: string, file: string, gasPrice: uint64)
    requires Signs(env) && Replies(env, w.clock) && Replies(env, w.clock + 1) && TakenUpAt(env, w.clock + 1)
    requires Settled(w) && NoneAhead(w.ledger) && Room(w, name, 1) && gasPrice < TWO_63
    requires name in w.accounts && StandingOf(w, name).Level?
    ensures var (w', r) := DeployCalls.StoreStage(env, w, name, file, gasPrice);
            && r.Ok? && w'.clock == w.clock + 2 && Settled(w') && NoneAhead(w'.ledger)
            && name in w'.accounts && StandingOf(w', name).Behind?
  {
    var msg := StoreCode(w.accounts[name].address, env.files(w.clock, file).value);
    PromptSubmit(env, w, name, msg, gasPrice);
  }

  /** One pair on which the tools part: andromeda's call returns with an empty code id, white_whale's ends
      the process. */
  lemma OnePairDiverges(env: Env, w: World, d: DeployCalls.Deployer, p: Pair)
    requires NoIdAtFourth(env, w.clock)
    requires Settled(w) && NoneAhead(w.ledger) && Room(w, d.signer.name, 1) && p.gasPrice < TWO_63
    requires d.isFirstDeploy && d.signer.name in w.accounts && StandingOf(w, d.signer.name).Level?
    ensures Deploy(env, w, true, d.signer.name, p.payload, p.file, p.gasPrice).2 == Ok(("", "x"))
    ensures DeployCalls.DoUploadAndInstantiate(env, w, d, Some(p.payload), p.file, p.gasPrice).2.Exit?
  {
    var name := d.signer.name;
    StoreGoesThrough(env, w, name, p.file, p.gasPrice);
    var (w2, codeId) := DeployCalls.StoreStage(env, w, name, p.file, p.gasPrice);
    BumpLevels(w2, name);
    InstantiateYieldsNoId(env, Bump(w2, name), name, codeId.value, p.payload);
    NoIdDetails();
    SameStep(env, w, d, p);
  }

  /** If another pair follows, whatever it meets, the two tools end in different worlds. */
  lemma TwoPairsEndApart(env: Env, w: World, d: DeployCalls.Deployer, p: Pair, rest: seq<Pair>)
    requires NoIdAtFourth(env, w.clock) && rest != []
    requires Settled(w) && NoneAhead(w.ledger) && Room(w, d.signer.name, 1) && p.gasPrice < TWO_63
    requires d.isFirstDeploy && d.signer.name in w.accounts && StandingOf(w, d.signer.name).Level?
    ensures RunTool(env, w, true, d.signer.name, [p] + rest).0 != DeployCalls.Run(env, w, d, AsCalls([p] + rest)).0
  {
    var pairs := [p] + rest;
    assert pairs[0] == p;
    OnePairDiverges(env, w, d, p);
    var (wa, fa, doneA, reported) := RunTool(env, w, true, d.signer.name, pairs);
    var (ww, dw, doneW) := DeployCalls.Run(env, w, d, AsCalls(pairs));
    assert reported[0] == ("", "x");
    NoIdDetails();
    SameRun(env, w, d, pairs, wa, fa, doneA, reported, ww, dw, doneW);
  }

  // ----- a concrete instance -----

  const GOOD: TxResult := TxResult(0, [Event("store_code", [Attribute("code_id", "1")])])

  const ENV: Env := Env((t, tx) => true, (t, f) => Some([0]),
                        t => Weather([Execute(0, if t == 3 then NO_ID else GOOD)], true, 0, true))

  const SIGNER: AccountInfo := AccountInfo("user1", "", 0, 1, "wasm1")

  const WORLD: World := World(map["user1" := SIGNER], map["wasm1" := "user1"], Ledger(map[], [], []), 0, [], [])

  lemma GoodIsGood()
    ensures GoodResult(GOOD)
  {
    var attributes := GOOD.events[0].attributes;
    assert LastValue(attributes, "code_id") == "1";
    assert "1"[..0] == "";
    assert DecimalValue("1") == 1;
  }

  /** The failing input: a new chain, a new deployer, one account, two pairs. */
  lemma DivergenceHappens(p: Pair, q: Pair)
    requires p.gasPrice < TWO_63
    ensures var d := DeployCalls.Deployer(SIGNER, true);
            && Deploy(ENV, WORLD, true, "user1", p.payload, p.file, p.gasPrice).2 == Ok(("", "x"))
            && DeployCalls.DoUploadAndInstantiate(ENV, WORLD, d, Some(p.payload), p.file, p.gasPrice).2.Exit?
            && RunTool(ENV, WORLD, true, "user1", [p, q]).0 != DeployCalls.Run(ENV, WORLD, d, AsCalls([p, q])).0
  {
    GoodIsGood();
    assert TakenUpAt(ENV, 1) by {
      assert ENV.weather(1).deliveries == [Execute(0, GOOD)];
      assert ENV.weather(1).deliveries[0].index == 0;
    }
    var d := DeployCalls.Deployer(SIGNER, true);
    assert NoIdAtFourth(ENV, 0);
    OnePairDiverges(ENV, WORLD, d, p);
    TwoPairsEndApart(ENV, WORLD, d, p, [q]);
    assert [p] + [q] == [p, q];
  }
}
