/** The white_whale deployer: the object whose calls DeployCalls specifies. */
module ContractDeployers {
  import opened GoWords
  import opened TxEvents
  import opened Submission
  import DeployCalls
  import opened ChainClients
  import opened ChainServices

  class ContractDeployer {
    const chainService: ChainService
    const client: ChainClient
    var signer: AccountInfo
    var isFirstDeploy: bool

    constructor (signer: AccountInfo, chainService: ChainService, client: ChainClient)
      requires chainService.Valid() && chainService.client == client
      ensures Valid() && this.chainService == chainService && this.client == client
      ensures State() == DeployCalls.Deployer(signer, true)
    {
      this.chainService, this.client := chainService, client;
      this.signer, isFirstDeploy := signer, true;
    }

    ghost predicate Valid()
      reads client, chainService.client
    {
      chainService.client == client && chainService.Valid()
    }

    function State(): DeployCalls.Deployer
      reads this
    {
      DeployCalls.Deployer(signer, isFirstDeploy)
    }

    method SetAccount(signer: AccountInfo)
      modifies this
      ensures State() == old(State()).(signer := signer)
    {
      this.signer := signer;
    }

    method SetFirstDeploy(isFirst: bool)
      modifies this
      ensures State() == old(State()).(isFirstDeploy := isFirst)
    {
      isFirstDeploy := isFirst;
    }

    method IncreaseSequence() returns (ok: bool)
      requires Valid()
      modifies this, client
      ensures Valid()
      ensures (chainService.TheWorld(), State(), ok) ==
              DeployCalls.IncreaseSequence(old(chainService.TheWorld()), old(State()))
    {
      if isFirstDeploy {
        isFirstDeploy := false;
        return true;
      }
      ok := client.IncreaseSequence(signer.name);
    }

    method Upload(filepath: string, gasPrice: uint64) returns (r: Outcome<uint64>)
      requires Valid()
      modifies chainService, client, chainService.c
      ensures Valid()
      ensures (chainService.TheWorld(), r) ==
              DeployCalls.DoUpload(chainService.c.env, old(chainService.TheWorld()), old(State()), filepath, gasPrice)
    {
      var ok := client.IncreaseSequence(signer.name);
      if !ok {
        return Exit;
      }
      var txRes := chainService.DeployContract(signer.name, filepath, gasPrice);
      if txRes.Exit? {
        return Exit;
      }
      var details := ExtractResultTxDetails(txRes.value.events);
      if !details.Details? {
        return Exit;
      }
      var codeID := ParseUint(details.codeId);
      if codeID.None? {
        return Exit;
      }
      return Ok(codeID.value);
    }

    /** `msg` is the marshalled instantiate message, or None when marshalling fails. */
    method UploadAndInstantiate(msg: Option<bytes>, filepath: string, gasPrice: uint64)
      returns (r: Outcome<(uint64, string)>)
      requires Valid()
      modifies this, chainService, client, chainService.c
      ensures Valid()
      ensures (chainService.TheWorld(), State(), r) ==
              DeployCalls.DoUploadAndInstantiate(chainService.c.env, old(chainService.TheWorld()), old(State()),
                                                 msg, filepath, gasPrice)
    {
      hide IsExtraction;
      ghost var env := chainService.c.env;
      var bumped := IncreaseSequence();
      if !bumped || msg.None? {
        return Exit;
      }
      ghost var w1, d1 := chainService.TheWorld(), State();
      var txRes := chainService.DeployContract(signer.name, filepath, gasPrice);
      if txRes.Exit? {
        return Exit;
      }
      // The extraction error is overwritten by the result of the parse.
      var details := ExtractResultTxDetails(txRes.value.events);
      var codeId := ParseUint(RawCodeId(details));
      ghost var w2 := chainService.TheWorld();
      if codeId.None? {
        return Exit;
      }
      assert DeployCalls.StoreStage(env, w1, signer.name, filepath, gasPrice) == (w2, Ok(codeId.value));
      bumped := IncreaseSequence();
      if !bumped {
        return Exit;
      }
      ghost var w3 := chainService.TheWorld();
      assert DeployCalls.IncreaseSequence(w2, d1) == (w3, d1, true);
      txRes := chainService.InstantiateContract(signer.name, codeId.value, msg.value, 2000000);
      ghost var w4 := chainService.TheWorld();
      ghost var stage := DeployCalls.InstantiateStage(env, w3, signer.name, codeId.value, msg.value);
      if txRes.Exit? {
        assert stage == (w4, Exit);
        return Exit;
      }
      details := ExtractResultTxDetails(txRes.value.events);
      if !details.Details? {
        assert stage == (w4, Exit);
        return Exit;
      }
      assert stage == (w4, Ok(details));
      var contractCodeId := ParseUint(details.codeId);
      if contractCodeId.None? {
        return Exit;
      }
      return Ok((contractCodeId.value, details.address));
    }
  }
}
