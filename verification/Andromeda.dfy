/** The andromeda tool: the same paired deployment with a global flag and a bare client, and its
    equivalence with the white_whale deployer. */
module Andromeda {
  import opened GoWords
  import opened TxEvents
  import opened ChainModel
  import opened Submission
  import DeployCalls
  import opened ChainClients
  import opened ChainServices
  import opened DeployResults

  /** uploadAndInstantiate: `first` is the global flag. It reports the extracted texts unparsed. */
  function Deploy(env: Env, w: World, first: bool, name: string, payload: bytes, file: string, gasPrice: uint64)
    : (World, bool, Outcome<(string, string)>)
  {
    if !first && name !in w.accounts then (w, first, Exit)
    else
      var w1 := if first then w else Bump(w, name);
      var (w2, codeId) := DeployCalls.StoreStage(env, w1, name, file, gasPrice);
      if codeId.Exit? || name !in w2.accounts then (w2, false, Exit)
      else
        var (w3, made) := DeployCalls.InstantiateStage(env, Bump(w2, name), name, codeId.value, payload);
        if made.Exit? then (w3, false, Exit)
        else (w3, false, Ok((made.value.codeId, made.value.address)))
  }

  /** The tool's mutable state: one global flag beside the shared client. */
  class Tool {
    var isFirstDeploy: bool

    constructor ()
      ensures isFirstDeploy
    {
      isFirstDeploy := true;
    }

    method UploadAndInstantiate(chainService: ChainService, client: ChainClient, signer: AccountInfo,
                                msg: bytes, filepath: string, gasPrice: uint64)
      returns (r: Outcome<(string, string)>)
      requires chainService.Valid() && chainService.client == client
      modifies this, chainService, client, chainService.c
      ensures chainService.Valid()
      ensures (chainService.TheWorld(), isFirstDeploy, r) ==
              Deploy(chainService.c.env, old(chainService.TheWorld()), old(isFirstDeploy),
                     signer.name, msg, filepath, gasPrice)
    {
      hide IsExtraction;
      ghost var env := chainService.c.env;
      if !isFirstDeploy {
        var ok := client.IncreaseSequence(signer.name);
        if !ok {
          return Exit;
        }
      }
      isFirstDeploy := false;
      ghost var w1 := chainService.TheWorld();
      var txRes := chainService.DeployContract(signer.name, filepath, gasPrice);
      if txRes.Exit? {
        return Exit;
      }
      var details := ExtractResultTxDetails(txRes.value.events);
      var codeID := ParseUint(RawCodeId(details));
      ghost var w2 := chainService.TheWorld();
      if codeID.None? {
        return Exit;
      }
      assert DeployCalls.StoreStage(env, w1, signer.name, filepath, gasPrice) == (w2, Ok(codeID.value));
      var ok := client.IncreaseSequence(signer.name);
      if !ok {
        return Exit;
      }
      ghost var w3 := chainService.TheWorld();
      assert w3 == Bump(w2, signer.name);
      txRes := chainService.InstantiateContract(signer.name, codeID.value, msg, 2000000);
      ghost var stage := DeployCalls.InstantiateStage(env, w3, signer.name, codeID.value, msg);
      if txRes.Exit? {
        assert stage == (chainService.TheWorld(), Exit);
        return Exit;
      }
      details := ExtractResultTxDetails(txRes.value.events);
      if !details.Details? {
        assert stage == (chainService.TheWorld(), Exit);
        return Exit;
      }
      assert stage == (chainService.TheWorld(), Ok(details));
      return Ok((details.codeId, details.address));
    }
  }

  /** MAIN THEOREM. A deployment that returns got exactly two transactions confirmed, at consecutive
      sequences: the file's bytes at the asked gas price, then the payload for the code id the first result
      reports, at 2000000; and it returns the very texts of the second result, parsable or not. */
  lemma CompletedDeploy(env: Env, w: World, first: bool, name: string, payload: bytes, file: string, gasPrice: uint64,
                        w': World, first': bool, id: string, address: string)
    requires Deploy(env, w, first, name, payload, file, gasPrice) == (w', first', Ok((id, address)))
    ensures !first' && name in w.accounts && env.files(w.clock, file).Some? && gasPrice < TWO_63
    ensures var acc := w.accounts[name];
            var start := if first then acc.sequence else Next(acc.sequence);
            && w'.accounts == w.accounts[name := acc.(sequence := Next(start))]
            && |w'.confirmed| == |w.confirmed| + 2 && w.confirmed <= w'.confirmed
            && var stored, made := w'.confirmed[|w.confirmed|], w'.confirmed[|w.confirmed| + 1];
            && stored.tx == TxOf(acc, start, StoreCode(acc.address, env.files(w.clock, file).value), gasPrice)
            && made.tx.msg.Instantiate? && ReportsId(stored.result, made.tx.msg.codeId)
            && made.tx == TxOf(acc, Next(start), Instantiate(acc.address, made.tx.msg.codeId, payload), 2000000)
            && made.result.code == 0 && IsExtraction(made.result.events, Details(id, address))
  {
    hide IsExtraction, IsTextOf;
    var w1 := if first then w else Bump(w, name);
    StoreStageConfirms(env, w1, name, file, gasPrice);
    var (w2, codeId) := DeployCalls.StoreStage(env, w1, name, file, gasPrice);
    var w3 := Bump(w2, name);
    var msg := Instantiate(w3.accounts[name].address, codeId.value, payload);
    SubmitConfirms(env, w3, name, msg, INSTANTIATE_GAS_PRICE);
    var (_, made) := InstantiateContract(env, w3, name, codeId.value, payload, INSTANTIATE_GAS_PRICE);
    DetailsOfFirstRelevant(made.value.events);
  }

  datatype Pair = Pair(payload: bytes, file: string, gasPrice: uint64)

  /** A list of paired deployments by the andromeda tool, with what each reported. */
  function RunTool(env: Env, w: World, first: bool, name: string, pairs: seq<Pair>)
    : (World, bool, bool, seq<(string, string)>)
    decreases |pairs|
  {
    if pairs == [] then (w, first, true, [])
    else
      var (w1, first1, r) := Deploy(env, w, first, name, pairs[0].payload, pairs[0].file, pairs[0].gasPrice);
      if r.Exit? then (w1, first1, false, [])
      else
        var (w2, first2, done, rest) := RunTool(env, w1, first1, name, pairs[1..]);
        (w2, first2, done, [r.value] + rest)
  }

  /** The same list as calls of the white_whale deployer. */
  function AsCalls(pairs: seq<Pair>): seq<DeployCalls.Call> {
    if pairs == [] then []
    else
      var p := pairs[0];
      [DeployCalls.UploadAndInstantiate(Some(p.payload), p.file, p.gasPrice)] + AsCalls(pairs[1..])
  }

  /** One pair: both implementations leave the same world and flag, and the only difference is that
      white_whale also insists on parsing the final code id. */
  lemma SameStep(env: Env, w: World, d: DeployCalls.Deployer, p: Pair)
    ensures var (wa, fa, ra) := Deploy(env, w, d.isFirstDeploy, d.signer.name, p.payload, p.file, p.gasPrice);
            var (ww, dw, rw) := DeployCalls.DoUploadAndInstantiate(env, w, d, Some(p.payload), p.file, p.gasPrice);
            && ww == wa && dw == DeployCalls.Deployer(d.signer, fa)
            && (rw.Ok? <==> ra.Ok? && ParseUint(ra.value.0).Some?)
            && (rw.Ok? ==> rw.value == (ParseUint(ra.value.0).value, ra.value.1))
  {
    var (w1, d1, bumped) := DeployCalls.IncreaseSequence(w, d);
    if bumped {
      var (w2, codeId) := DeployCalls.StoreStage(env, w1, d.signer.name, p.file, p.gasPrice);
      if codeId.Ok? && d.signer.name in w2.accounts {
        assert DeployCalls.IncreaseSequence(w2, d1) == (Bump(w2, d.signer.name), d1, true);
      }
    }
  }

  /** Every reported code id is a decimal number below 2^64. */
  ghost predicate AllParse(reported: seq<(string, string)>) {
    forall i :: 0 <= i < |reported| ==> ParseUint(reported[i].0).Some?
  }

  lemma AllParseCons(first: (string, string), rest: seq<(string, string)>)
    ensures AllParse([first] + rest) <==> ParseUint(first.0).Some? && AllParse(rest)
  {
    var all := [first] + rest;
    assert all[0] == first && forall i :: 0 <= i < |rest| ==> all[i + 1] == rest[i];
  }

  lemma StoreStageKeepsAccounts(env: Env, w: World, name: string, file: string, gasPrice: uint64)
    ensures var (w', r) := DeployCalls.StoreStage(env, w, name, file, gasPrice);
            w'.accounts == w.accounts && w.signed <= w'.signed && (r.Ok? ==> w'.signed != w.signed)
  {
    if env.files(w.clock, file).Some? && name in w.accounts {
      SubmitShape(env, w, name, StoreCode(w.accounts[name].address, env.files(w.clock, file).value), gasPrice);
    }
  }

  lemma InstantiateOnlyAppends(env: Env, w: World, name: string, codeId: uint64, payload: bytes)
    ensures w.signed <= DeployCalls.InstantiateStage(env, w, name, codeId, payload).0.signed
  {
    if name in w.accounts {
      SubmitShape(env, w, name, Instantiate(w.accounts[name].address, codeId, payload), INSTANTIATE_GAS_PRICE);
    }
  }

  lemma DeployOnlyAppends(env: Env, w: World, first: bool, name: string, p: Pair)
    ensures w.signed <= Deploy(env, w, first, name, p.payload, p.file, p.gasPrice).0.signed
  {
    if first || name in w.accounts {
      var w1 := if first then w else Bump(w, name);
      StoreStageKeepsAccounts(env, w1, name, p.file, p.gasPrice);
      var (w2, codeId) := DeployCalls.StoreStage(env, w1, name, p.file, p.gasPrice);
      if codeId.Ok? && name in w2.accounts {
        InstantiateOnlyAppends(env, Bump(w2, name), name, codeId.value, p.payload);
      }
    }
  }

  lemma {:induction false} ToolOnlyAppends(env: Env, w: World, first: bool, name: string, pairs: seq<Pair>)
    ensures w.signed <= RunTool(env, w, first, name, pairs).0.signed
    decreases |pairs|
  {
    if pairs != [] {
      DeployOnlyAppends(env, w, first, name, pairs[0]);
      var (w1, first1, r) := Deploy(env, w, first, name, pairs[0].payload, pairs[0].file, pairs[0].gasPrice);
      if r.Ok? {
        ToolOnlyAppends(env, w1, first1, name, pairs[1..]);
      }
    }
  }

  /** Every reported code id parses, except perhaps that of the last of `n` pairs. */
  ghost predicate AllButLastParse(reported: seq<(string, string)>, n: nat) {
    forall i :: 0 <= i < |reported| && i + 1 < n ==> ParseUint(reported[i].0).Some?
  }

  lemma AllButLastParseCons(first: (string, string), rest: seq<(string, string)>, n: nat)
    requires n > 0 && |rest| < n
    ensures AllButLastParse([first] + rest, n) <==>
            (n == 1 || ParseUint(first.0).Some?) && AllButLastParse(rest, n - 1)
  {
    var all := [first] + rest;
    assert all[0] == first && forall i :: 0 <= i < |rest| ==> all[i + 1] == rest[i];
    if AllButLastParse(all, n) {
      forall i | 0 <= i < |rest| && i + 1 < n - 1 ensures ParseUint(rest[i].0).Some? {
        assert all[i + 1] == rest[i];
      }
    }
  }

  /** The tool reports one pair of texts for each pair it completed: all of them if and only if it ran to
      the end. */
  lemma {:induction false} OneReportEach(env: Env, w: World, first: bool, name: string, pairs: seq<Pair>)
    ensures var (_, _, done, reported) := RunTool(env, w, first, name, pairs);
            if done then |reported| == |pairs| else |reported| < |pairs|
    decreases |pairs|
  {
    if pairs != [] {
      var (w1, first1, r) := Deploy(env, w, first, name, pairs[0].payload, pairs[0].file, pairs[0].gasPrice);
      if r.Ok? {
        OneReportEach(env, w1, first1, name, pairs[1..]);
      }
    }
  }

  lemma InstantiateStageKeepsAccounts(env: Env, w: World, name: string, codeId: uint64, payload: bytes)
    ensures DeployCalls.InstantiateStage(env, w, name, codeId, payload).0.accounts == w.accounts
  {
    if name in w.accounts {
      var msg := Instantiate(w.accounts[name].address, codeId, payload);
      SubmitShape(env, w, name, msg, INSTANTIATE_GAS_PRICE);
    }
  }

  /** A deployment that returns has signed something, with an account that exists and a cleared flag. */
  lemma ReturningDeploySigned(env: Env, w: World, first: bool, name: string, p: Pair)
    ensures var (w', first', r) := Deploy(env, w, first, name, p.payload, p.file, p.gasPrice);
            r.Ok? ==> name in w'.accounts && !first' && |w.signed| < |w'.signed|
  {
    if first || name in w.accounts {
      var w1 := if first then w else Bump(w, name);
      StoreStageKeepsAccounts(env, w1, name, p.file, p.gasPrice);
      var (w2, codeId) := DeployCalls.StoreStage(env, w1, name, p.file, p.gasPrice);
      if codeId.Ok? && name in w2.accounts {
        InstantiateStageKeepsAccounts(env, Bump(w2, name), name, codeId.value, p.payload);
        InstantiateOnlyAppends(env, Bump(w2, name), name, codeId.value, p.payload);
      }
    }
  }

  /** With the flag clear, a deployment by an existing account leaves another world behind even if it does
      not return: it signs something, or at least bumps the counter. */
  lemma DeployMoves(env: Env, w: World, name: string, p: Pair)
    requires name in w.accounts
    ensures var (w', _, r) := Deploy(env, w, false, name, p.payload, p.file, p.gasPrice);
            w'.signed != w.signed || w'.accounts != w.accounts
  {
    var w1 := Bump(w, name);
    assert w1.accounts[name] != w.accounts[name];
    StoreStageKeepsAccounts(env, w1, name, p.file, p.gasPrice);
    var (w2, codeId) := DeployCalls.StoreStage(env, w1, name, p.file, p.gasPrice);
    if codeId.Ok? {
      InstantiateOnlyAppends(env, Bump(w2, name), name, codeId.value, p.payload);
    }
  }

  lemma ToolMoves(env: Env, w: World, name: string, pairs: seq<Pair>)
    requires pairs != [] && name in w.accounts
    ensures RunTool(env, w, false, name, pairs).0 != w
  {
    var p := pairs[0];
    DeployMoves(env, w, name, p);
    ReturningDeploySigned(env, w, false, name, p);
    var (w1, first1, r) := Deploy(env, w, false, name, p.payload, p.file, p.gasPrice);
    if r.Ok? {
      ToolOnlyAppends(env, w1, first1, name, pairs[1..]);
    }
  }

  /** The flag stays clear. */
  lemma {:induction false} FlagStaysClear(env: Env, w: World, name: string, pairs: seq<Pair>)
    ensures !RunTool(env, w, false, name, pairs).1
    decreases |pairs|
  {
    if pairs != [] {
      var p := pairs[0];
      var (w1, first1, r) := Deploy(env, w, false, name, p.payload, p.file, p.gasPrice);
      if r.Ok? {
        FlagStaysClear(env, w1, name, pairs[1..]);
      }
    }
  }

  /** How the two tools' runs over one list of pairs compare: worlds, flags, completion, and what the
      andromeda tool reported. */
  ghost predicate Compare(wa: World, fa: bool, doneA: bool, reported: seq<(string, string)>,
                          ww: World, dw: DeployCalls.Deployer, doneW: bool, signer: AccountInfo, n: nat)
  {
    && dw == DeployCalls.Deployer(signer, fa)
    && ww.signed <= wa.signed
    && (doneW <==> doneA && AllParse(reported))
    && (ww == wa && doneW == doneA <==> AllParse(reported))
    && (ww == wa <==> AllButLastParse(reported, n))
  }

  /** MAIN THEOREM. Lists of pairs, in every environment: the white_whale run is the andromeda run cut off
      where a reported code id does not parse. Both end in the same world and agree on completion if and
      only if every reported id parses; the worlds alone are equal if and only if every reported id parses
      but that of the list's last pair, which may do without. The flags always agree, and everything
      white_whale signed is what andromeda signed first. */
  lemma {:induction false} SameRun(env: Env, w: World, d: DeployCalls.Deployer, pairs: seq<Pair>,
                                   wa: World, fa: bool, doneA: bool, reported: seq<(string, string)>,
                                   ww: World, dw: DeployCalls.Deployer, doneW: bool)
    requires RunTool(env, w, d.isFirstDeploy, d.signer.name, pairs) == (wa, fa, doneA, reported)
    requires DeployCalls.Run(env, w, d, AsCalls(pairs)) == (ww, dw, doneW)
    ensures Compare(wa, fa, doneA, reported, ww, dw, doneW, d.signer, |pairs|)
    decreases |pairs|
  {
    if pairs != [] {
      var p := pairs[0];
      var name := d.signer.name;
      SameStep(env, w, d, p);
      var (w1, f1, r1) := Deploy(env, w, d.isFirstDeploy, name, p.payload, p.file, p.gasPrice);
      assert AsCalls(pairs)[0] == DeployCalls.UploadAndInstantiate(Some(p.payload), p.file, p.gasPrice);
      assert AsCalls(pairs)[1..] == AsCalls(pairs[1..]);
      if r1.Ok? {
        var (_, _, _, rest) := RunTool(env, w1, f1, name, pairs[1..]);
        AllParseCons(r1.value, rest);
        OneReportEach(env, w1, f1, name, pairs[1..]);
        AllButLastParseCons(r1.value, rest, |pairs|);
        if ParseUint(r1.value.0).Some? {
          SameRun(env, w1, DeployCalls.Deployer(d.signer, f1), pairs[1..], wa, fa, doneA, rest, ww, dw, doneW);
        } else {
          ReturningDeploySigned(env, w, d.isFirstDeploy, name, p);
          CutOff(env, w1, d.signer, pairs[1..], wa, fa, doneA, rest);
        }
      }
    }
  }

  /** What the andromeda tool does after a code id that does not parse. */
  lemma CutOff(env: Env, w: World, signer: AccountInfo, pairs: seq<Pair>,
               wa: World, fa: bool, doneA: bool, rest: seq<(string, string)>)
    requires signer.name in w.accounts
    requires RunTool(env, w, false, signer.name, pairs) == (wa, fa, doneA, rest)
    ensures !fa && w.signed <= wa.signed && (wa == w <==> pairs == []) && (pairs == [] ==> doneA && rest == [])
  {
    ToolOnlyAppends(env, w, false, signer.name, pairs);
    FlagStaysClear(env, w, signer.name, pairs);
    if pairs != [] {
      ToolMoves(env, w, signer.name, pairs);
    }
  }
}
