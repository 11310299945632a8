/** What every program of calls keeps, allowed or not, in every environment. */
module DeployHistory {
  import opened GoWords
  import opened TxEvents
  import opened ChainModel
  import opened Submission
  import opened DeployCalls

  lemma FinishKeepsHistory(env: Env, w: World, d: Deployer, codeId: uint64, payload: bytes)
    ensures var (w', _, _) := FinishPair(env, w, d, codeId, payload);
            |w.signed| <= |w'.signed| && w'.signed[..|w.signed|] == w.signed
  {
    var (w1, _, bumped) := IncreaseSequence(w, d);
    if bumped && d.signer.name in w1.accounts {
      var msg := Instantiate(w1.accounts[d.signer.name].address, codeId, payload);
      SubmitShape(env, w1, d.signer.name, msg, INSTANTIATE_GAS_PRICE);
    }
  }

  lemma StepKeepsHistory(env: Env, w: World, d: Deployer, c: Call)
    ensures var (w', _, _) := Step(env, w, d, c);
            |w.signed| <= |w'.signed| && w'.signed[..|w.signed|] == w.signed
  {
    match c
    case SyncAccount(_) =>
    case SetAccount(_) =>
    case SetFirstDeploy(_) =>
    case Upload(file, gasPrice) =>
      if d.signer.name in w.accounts {
        DeployKeepsHistory(env, Bump(w, d.signer.name), d.signer.name, file, gasPrice);
      }
    case UploadAndInstantiate(payload, file, gasPrice) =>
      var (w1, d1, bumped) := IncreaseSequence(w, d);
      if bumped && payload.Some? {
        DeployKeepsHistory(env, w1, d.signer.name, file, gasPrice);
        var (w2, codeId) := StoreStage(env, w1, d.signer.name, file, gasPrice);
        if codeId.Ok? {
          FinishKeepsHistory(env, w2, d1, codeId.value, payload.value);
          var (w3, _, _) := FinishPair(env, w2, d1, codeId.value, payload.value);
          assert w3.signed[..|w.signed|] == w2.signed[..|w.signed|];
        }
      }
  }

  lemma DeployKeepsHistory(env: Env, w: World, name: string, file: string, override: uint64)
    ensures var (w', _) := DeployContract(env, w, name, file, override);
            |w.signed| <= |w'.signed| && w'.signed[..|w.signed|] == w.signed
  {
    if env.files(w.clock, file).Some? && name in w.accounts {
      SubmitShape(env, w, name, StoreCode(w.accounts[name].address, env.files(w.clock, file).value), override);
    }
  }

  lemma {:induction false} RunKeepsHistory(env: Env, w: World, d: Deployer, calls: seq<Call>)
    ensures var (w', _, _) := Run(env, w, d, calls);
            |w.signed| <= |w'.signed| && w'.signed[..|w.signed|] == w.signed
    decreases |calls|
  {
    if calls != [] {
      StepKeepsHistory(env, w, d, calls[0]);
      var (w1, d1, goesOn) := Step(env, w, d, calls[0]);
      if goesOn {
        RunKeepsHistory(env, w1, d1, calls[1..]);
        var (w2, _, _) := Run(env, w1, d1, calls[1..]);
        assert w2.signed[..|w.signed|] == w1.signed[..|w.signed|];
      }
    }
  }

  // ----- one at a time, and only with an extracted id -----

  /** The code id of an instantiate transaction is the number denoted by the id extracted from the
      result of the store transaction confirmed just before it. */
  ghost predicate IdWasExtracted(codeId: uint64, stored: Confirmation) {
    stored.tx.msg.StoreCode? && DenotesId(DetailsOf(stored.result.events), codeId)
  }

  /** Confirmations follow signings one for one; every signing came after the confirmation, with
      code 0, of all earlier ones; and no instantiate transaction was signed blindly. */
  ghost predicate Logged(w: World) {
    && |w.confirmed| <= |w.signed|
    && (forall i :: 0 <= i < |w.confirmed| ==>
          w.confirmed[i].tx == w.signed[i].tx && w.confirmed[i].result.code == 0)
    && (forall i :: 0 <= i < |w.signed| ==> w.signed[i].awaiting == 0)
    && (forall i :: 0 <= i < |w.signed| && w.signed[i].tx.msg.Instantiate? ==>
          0 < i <= |w.confirmed| && IdWasExtracted(w.signed[i].tx.msg.codeId, w.confirmed[i - 1]))
  }

  ghost predicate CaughtUp(w: World) {
    Logged(w) && |w.confirmed| == |w.signed|
  }

  ghost predicate LastConfirmed(w: World, r: TxResult, msg: Msg) {
    w.confirmed != [] && w.confirmed[|w.confirmed| - 1].result == r && w.confirmed[|w.confirmed| - 1].tx.msg == msg
  }

  lemma SigningKeepsLog(w: World, s: Signing, w': World)
    requires CaughtUp(w) && w'.signed == w.signed + [s] && w'.confirmed == w.confirmed && s.awaiting == 0
    requires s.tx.msg.Instantiate? ==>
               w.confirmed != [] && IdWasExtracted(s.tx.msg.codeId, w.confirmed[|w.confirmed| - 1])
    ensures Logged(w')
  {
  }

  lemma ConfirmingKeepsLog(w: World, c: Confirmation, w': World)
    requires Logged(w) && |w.signed| == |w.confirmed| + 1
    requires w'.signed == w.signed && w'.confirmed == w.confirmed + [c]
    requires c.tx == w.signed[|w.confirmed|].tx && c.result.code == 0
    ensures CaughtUp(w')
  {
    forall i | 0 <= i < |w'.signed| && w'.signed[i].tx.msg.Instantiate?
      ensures 0 < i <= |w'.confirmed| && IdWasExtracted(w'.signed[i].tx.msg.codeId, w'.confirmed[i - 1])
    {
      assert w'.confirmed[i - 1] == w.confirmed[i - 1];
    }
  }

  lemma SubmitLogged(env: Env, w: World, name: string, msg: Msg, override: uint64)
    requires CaughtUp(w)
    requires msg.Instantiate? ==> w.confirmed != [] && IdWasExtracted(msg.codeId, w.confirmed[|w.confirmed| - 1])
    ensures var (w', r) := Submit(env, w, name, msg, override);
            Logged(w') && (r.Ok? ==> CaughtUp(w') && LastConfirmed(w', r.value, msg))
  {
    SubmitShape(env, w, name, msg, override);
    var (w', r) := Submit(env, w, name, msg, override);
    if w'.signed != w.signed {
      var tx :| w'.signed == w.signed + [SigningOf(w, tx)] && tx.msg == msg;
      SigningKeepsLog(w, SigningOf(w, tx), w'.(confirmed := w.confirmed));
      if r.Ok? {
        ConfirmingKeepsLog(w'.(confirmed := w.confirmed), Confirmation(tx, r.value), w');
      }
    }
  }

  lemma DeployLogged(env: Env, w: World, name: string, file: string, override: uint64)
    requires CaughtUp(w)
    ensures var (w', r) := DeployContract(env, w, name, file, override);
            && Logged(w')
            && (r.Ok? ==> CaughtUp(w') && exists msg: Msg :: msg.StoreCode? && LastConfirmed(w', r.value, msg))
  {
    if env.files(w.clock, file).Some? && name in w.accounts {
      SubmitLogged(env, w, name, StoreCode(w.accounts[name].address, env.files(w.clock, file).value), override);
    }
  }

  /** The extraction error is overwritten, yet a code id is obtained only from a successful extraction. */
  lemma StoreLogged(env: Env, w: World, name: string, file: string, gasPrice: uint64)
    requires CaughtUp(w)
    ensures var (w', codeId) := StoreStage(env, w, name, file, gasPrice);
            Logged(w') && (codeId.Ok? ==> CaughtUp(w') && w'.confirmed != []
                                          && IdWasExtracted(codeId.value, w'.confirmed[|w'.confirmed| - 1]))
  {
    DeployLogged(env, w, name, file, gasPrice);
    var (_, stored) := DeployContract(env, w, name, file, gasPrice);
    if stored.Ok? {
      ParsedIsText(RawCodeId(DetailsOf(stored.value.events)));
    }
  }

  lemma FinishLogged(env: Env, w: World, d: Deployer, codeId: uint64, payload: bytes)
    requires CaughtUp(w) && w.confirmed != [] && IdWasExtracted(codeId, w.confirmed[|w.confirmed| - 1])
    ensures var (w', _, r) := FinishPair(env, w, d, codeId, payload); Logged(w') && (r.Ok? ==> CaughtUp(w'))
  {
    var (w1, _, bumped) := IncreaseSequence(w, d);
    if bumped && d.signer.name in w1.accounts {
      var msg := Instantiate(w1.accounts[d.signer.name].address, codeId, payload);
      SubmitLogged(env, w1, d.signer.name, msg, INSTANTIATE_GAS_PRICE);
    }
  }

  lemma StepLogged(env: Env, w: World, d: Deployer, c: Call)
    requires CaughtUp(w)
    ensures var (w', _, goesOn) := Step(env, w, d, c); Logged(w') && (goesOn ==> CaughtUp(w'))
  {
    match c
    case SyncAccount(_) =>
    case SetAccount(_) =>
    case SetFirstDeploy(_) =>
    case Upload(file, gasPrice) =>
      if d.signer.name in w.accounts {
        DeployLogged(env, Bump(w, d.signer.name), d.signer.name, file, gasPrice);
      }
    case UploadAndInstantiate(payload, file, gasPrice) => PairLogged(env, w, d, payload, file, gasPrice);
  }

  lemma PairLogged(env: Env, w: World, d: Deployer, payload: Option<bytes>, file: string, gasPrice: uint64)
    requires CaughtUp(w)
    ensures var (w', _, r) := DoUploadAndInstantiate(env, w, d, payload, file, gasPrice);
            Logged(w') && (r.Ok? ==> CaughtUp(w'))
  {
    var (w1, d1, bumped) := IncreaseSequence(w, d);
    if bumped && payload.Some? {
      StoreLogged(env, w1, d.signer.name, file, gasPrice);
      var (w2, codeId) := StoreStage(env, w1, d.signer.name, file, gasPrice);
      if codeId.Ok? {
        FinishLogged(env, w2, d1, codeId.value, payload.value);
      }
    }
  }

  /** MAIN THEOREM. In every run of every program: nothing is signed before WaitTx has confirmed
      everything signed earlier with code 0, and no instantiate transaction is signed with a code id
      other than the number extracted from the store result just confirmed, although the source
      overwrites the extraction error. */
  lemma {:induction false} ProgramLogged(env: Env, w: World, d: Deployer, calls: seq<Call>)
    requires CaughtUp(w)
    ensures var (w', _, done) := Run(env, w, d, calls); Logged(w') && (done ==> CaughtUp(w'))
    decreases |calls|
  {
    if calls != [] {
      StepLogged(env, w, d, calls[0]);
      var (w1, d1, goesOn) := Step(env, w, d, calls[0]);
      if goesOn {
        ProgramLogged(env, w1, d1, calls[1..]);
      }
    }
  }
}
