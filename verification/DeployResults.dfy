/** What a deploying call that returns has put on the chain, in every environment. */
module DeployResults {
  import opened GoWords
  import opened TxEvents
  import opened ChainModel
  import opened Submission
  import opened DeployCalls

  /** The transaction an account signs for a message at a sequence and a gas price override that does
      not panic: gas is twice the fee. */
  function TxOf(acc: AccountInfo, sequence: uint64, msg: Msg, override: uint64): Tx
    requires override < TWO_63
  {
    Tx(acc.number, sequence, FeeFor(override), 2 * FeeFor(override), msg)
  }

  /** The transaction succeeded, and the code id extracted from its result is the decimal text of `id`. */
  ghost predicate ReportsId(r: TxResult, id: uint64) {
    r.code == 0 && DenotesId(DetailsOf(r.events), id)
  }

  /** A submission signs if and only if the key is held, the gas price does not panic and the SDK takes the
      transaction; it signs that transaction and no other, and ends the process unchanged if it cannot. */
  lemma SubmitSignsIff(env: Env, w: World, name: string, msg: Msg, override: uint64)
    requires name in w.accounts
    ensures var (w', r) := Submit(env, w, name, msg, override);
            var acc := w.accounts[name];
            if name in w.keyring.Values && override < TWO_63
               && env.accepts(w.clock, TxOf(acc, acc.sequence, msg, override))
            then w'.signed == w.signed + [SigningOf(w, TxOf(acc, acc.sequence, msg, override))]
            else r.Exit? && w' == w
  {
    var s := Sign(env, w, name, msg, override);
    if s.Signed? {
      var (w2, _) := Broadcast(env, w.(signed := w.signed + [SigningOf(w, s.tx)]), s.tx);
      WaitShape(env, w2, s.tx, POLLS);
    }
  }

  /** DeployContract stores the file's bytes for the account's address, and does nothing at all for an
      unreadable or empty file or an unknown account. */
  lemma DeployContractSignsIff(env: Env, w: World, name: string, file: string, gasPrice: uint64)
    ensures var (w', r) := DeployContract(env, w, name, file, gasPrice);
            var bytes := env.files(w.clock, file);
            if bytes == None || bytes == Some([]) || name !in w.accounts then r.Exit? && w' == w
            else
              var acc := w.accounts[name];
              var msg := StoreCode(acc.address, bytes.value);
              if name in w.keyring.Values && gasPrice < TWO_63
                 && env.accepts(w.clock, TxOf(acc, acc.sequence, msg, gasPrice))
              then w'.signed == w.signed + [SigningOf(w, TxOf(acc, acc.sequence, msg, gasPrice))]
              else r.Exit? && w' == w
  {
    if env.files(w.clock, file).Some? && name in w.accounts {
      SubmitSignsIff(env, w, name, StoreCode(w.accounts[name].address, env.files(w.clock, file).value), gasPrice);
    }
  }

  lemma InstantiateContractSignsIff(env: Env, w: World, name: string, codeId: uint64, payload: bytes, override: uint64)
    ensures var (w', r) := InstantiateContract(env, w, name, codeId, payload, override);
            if name !in w.accounts then r.Exit? && w' == w
            else
              var acc := w.accounts[name];
              var msg := Instantiate(acc.address, codeId, payload);
              if name in w.keyring.Values && override < TWO_63
                 && env.accepts(w.clock, TxOf(acc, acc.sequence, msg, override))
              then w'.signed == w.signed + [SigningOf(w, TxOf(acc, acc.sequence, msg, override))]
              else r.Exit? && w' == w
  {
    if name in w.accounts {
      SubmitSignsIff(env, w, name, Instantiate(w.accounts[name].address, codeId, payload), override);
    }
  }

  lemma SubmitConfirms(env: Env, w: World, name: string, msg: Msg, override: uint64)
    requires name in w.accounts
    ensures var (w', r) := Submit(env, w, name, msg, override);
            && w'.accounts == w.accounts
            && (r.Ok? ==> && override < TWO_63 && r.value.code == 0
                          && var acc := w.accounts[name];
                          var tx := TxOf(acc, acc.sequence, msg, override);
                          w'.confirmed == w.confirmed + [Confirmation(tx, r.value)])
  {
    SubmitShape(env, w, name, msg, override);
  }

  lemma StoreConfirms(env: Env, w: World, name: string, file: string, gasPrice: uint64)
    requires name in w.accounts
    ensures var (w', r) := DeployContract(env, w, name, file, gasPrice);
            && w'.accounts == w.accounts
            && (r.Ok? ==> && gasPrice < TWO_63 && r.value.code == 0 && env.files(w.clock, file).Some?
                          && var acc := w.accounts[name];
                          var msg := StoreCode(acc.address, env.files(w.clock, file).value);
                          var tx := TxOf(acc, acc.sequence, msg, gasPrice);
                          w'.confirmed == w.confirmed + [Confirmation(tx, r.value)])
  {
    if env.files(w.clock, file).Some? {
      SubmitConfirms(env, w, name, StoreCode(w.accounts[name].address, env.files(w.clock, file).value), gasPrice);
    }
  }

  /** MAIN THEOREM. An Upload that returns a code id got exactly one transaction confirmed: the file's
      bytes, stored by the signer at the successor of its counter and at the asked gas price; and the
      id is the number its result reports. The counter has moved by one and the flag is untouched. */
  lemma CompletedUpload(env: Env, w: World, d: Deployer, file: string, gasPrice: uint64, w': World, id: uint64)
    requires DoUpload(env, w, d, file, gasPrice) == (w', Ok(id))
    ensures d.signer.name in w.accounts && env.files(w.clock, file).Some? && gasPrice < TWO_63
    ensures var acc := w.accounts[d.signer.name];
            && w'.accounts == w.accounts[d.signer.name := acc.(sequence := Next(acc.sequence))]
            && |w'.confirmed| == |w.confirmed| + 1 && w.confirmed <= w'.confirmed
            && var stored := w'.confirmed[|w.confirmed|];
            && var msg := StoreCode(acc.address, env.files(w.clock, file).value);
            && stored.tx == TxOf(acc, Next(acc.sequence), msg, gasPrice)
            && ReportsId(stored.result, id)
  {
    StoreConfirms(env, Bump(w, d.signer.name), d.signer.name, file, gasPrice);
    var (_, r) := DeployContract(env, Bump(w, d.signer.name), d.signer.name, file, gasPrice);
    ParsedIsText(DetailsOf(r.value.events).codeId);
  }

  lemma StoreStageConfirms(env: Env, w: World, name: string, file: string, gasPrice: uint64)
    requires name in w.accounts
    ensures var (w', r) := StoreStage(env, w, name, file, gasPrice);
            && w'.accounts == w.accounts
            && (r.Ok? ==> && gasPrice < TWO_63 && env.files(w.clock, file).Some?
                          && |w'.confirmed| == |w.confirmed| + 1 && w.confirmed <= w'.confirmed
                          && var acc := w.accounts[name];
                          var stored := w'.confirmed[|w.confirmed|];
                          var msg := StoreCode(acc.address, env.files(w.clock, file).value);
                          && stored.tx == TxOf(acc, acc.sequence, msg, gasPrice)
                          && ReportsId(stored.result, r.value))
  {
    StoreConfirms(env, w, name, file, gasPrice);
    var (_, stored) := DeployContract(env, w, name, file, gasPrice);
    if stored.Ok? {
      ParsedIsText(RawCodeId(DetailsOf(stored.value.events)));
    }
  }

  lemma FinishConfirms(env: Env, w: World, d: Deployer, codeId: uint64, payload: bytes)
    requires d.signer.name in w.accounts && !d.isFirstDeploy
    ensures var (w', d', r) := FinishPair(env, w, d, codeId, payload);
            var acc := w.accounts[d.signer.name];
            && d' == d && w'.accounts == w.accounts[d.signer.name := acc.(sequence := Next(acc.sequence))]
            && (r.Ok? ==> && |w'.confirmed| == |w.confirmed| + 1 && w.confirmed <= w'.confirmed
                          && var made := w'.confirmed[|w.confirmed|];
                          var msg := Instantiate(acc.address, codeId, payload);
                          && made.tx == TxOf(acc, Next(acc.sequence), msg, 2000000)
                          && ReportsId(made.result, r.value.0) && DetailsOf(made.result.events).address == r.value.1)
  {
    var name := d.signer.name;
    var w1 := Bump(w, name);
    SubmitConfirms(env, w1, name, Instantiate(w1.accounts[name].address, codeId, payload), INSTANTIATE_GAS_PRICE);
    var (_, made) := InstantiateStage(env, w1, name, codeId, payload);
    if made.Ok? {
      ParsedIsText(made.value.codeId);
    }
  }

  /** MAIN THEOREM. An UploadAndInstantiate that returns got exactly two transactions confirmed, at
      consecutive sequences: first the file's bytes at the asked gas price, then the payload for the
      very code id the first result reports, at 2000000; and it returns what the second result
      reports. The flag is clear and the counter is at the second sequence. */
  lemma CompletedPair(env: Env, w: World, d: Deployer, payload: Option<bytes>, file: string, gasPrice: uint64,
                      w': World, d': Deployer, id: uint64, address: string)
    requires DoUploadAndInstantiate(env, w, d, payload, file, gasPrice) == (w', d', Ok((id, address)))
    ensures d.signer.name in w.accounts && payload.Some? && env.files(w.clock, file).Some? && gasPrice < TWO_63
    ensures var acc := w.accounts[d.signer.name];
            var first := if d.isFirstDeploy then acc.sequence else Next(acc.sequence);
            && d' == d.(isFirstDeploy := false)
            && w'.accounts == w.accounts[d.signer.name := acc.(sequence := Next(first))]
            && |w'.confirmed| == |w.confirmed| + 2 && w.confirmed <= w'.confirmed
            && var stored, made := w'.confirmed[|w.confirmed|], w'.confirmed[|w.confirmed| + 1];
            && stored.tx == TxOf(acc, first, StoreCode(acc.address, env.files(w.clock, file).value), gasPrice)
            && made.tx.msg.Instantiate? && ReportsId(stored.result, made.tx.msg.codeId)
            && made.tx == TxOf(acc, Next(first), Instantiate(acc.address, made.tx.msg.codeId, payload.value), 2000000)
            && ReportsId(made.result, id) && DetailsOf(made.result.events).address == address
  {
    hide IsTextOf;
    var name := d.signer.name;
    var (w1, d1, _) := IncreaseSequence(w, d);
    StoreStageConfirms(env, w1, name, file, gasPrice);
    var (w2, codeId) := StoreStage(env, w1, name, file, gasPrice);
    FinishConfirms(env, w2, d1, codeId.value, payload.value);
  }
}
