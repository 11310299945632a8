/** Deploying and instantiating over RPC: the methods whose behaviour Submission specifies. */
module ChainServices {
  import opened GoWords
  import opened ChainModel
  import opened Submission
  import opened ChainClients

  /** The value of a reply to an account query: a sequence, or bytes that cannot be decoded. */
  datatype AccountReply = Sequence(value: uint64) | Garbled

  /** The node behind the RPC connection. */
  class Node {
    const env: Env
    var ledger: Ledger
    var clock: nat

    constructor (env: Env, ledger: Ledger)
      ensures this.env == env && this.ledger == ledger && clock == 0
    {
      this.env, this.ledger, clock := env, ledger, 0;
    }

    /** Accepts a transaction for the pool and replies with a code; None when the reply was lost. */
    method BroadcastTxAsync(tx: Tx) returns (code: Option<nat>)
      modifies this
      ensures var t := env.weather(old(clock));
              var l := Advance(old(ledger), t.deliveries);
              && clock == old(clock) + 1
              && ledger == (if t.code == 0 then l.(pool := l.pool + [tx]) else l)
              && code == (if t.transport then Some(t.code) else None)
    {
      var t := env.weather(clock);
      ledger := Advance(ledger, t.deliveries);
      clock := clock + 1;
      if t.code == 0 {
        ledger := ledger.(pool := ledger.pool + [tx]);
      }
      code := if t.transport then Some(t.code) else None;
    }

    /** The result of an included transaction; None for an error reply. */
    method GetTx(hash: Tx) returns (answer: Option<TxResult>)
      modifies this
      ensures var t := env.weather(old(clock));
              && ledger == Advance(old(ledger), t.deliveries) && clock == old(clock) + 1
              && answer == (if t.transport then Lookup(ledger.included, hash) else None)
    {
      var t := env.weather(clock);
      ledger := Advance(ledger, t.deliveries);
      clock := clock + 1;
      answer := if t.transport then Lookup(ledger.included, hash) else None;
    }

    /** The raw reply to an account query; None when it was lost or carries an error code. */
    method QuerySequence(address: string) returns (answer: Option<AccountReply>)
      modifies this
      ensures var t := env.weather(old(clock));
              && ledger == Advance(old(ledger), t.deliveries) && clock == old(clock) + 1
              && answer == if !t.transport || t.code != 0 then None
                           else Some(if t.decodes then Sequence(Expected(ledger, address)) else Garbled)
    {
      var t := env.weather(clock);
      ledger := Advance(ledger, t.deliveries);
      clock := clock + 1;
      if !t.transport || t.code != 0 {
        return None;
      }
      answer := Some(if t.decodes then Sequence(Expected(ledger, address)) else Garbled);
    }
  }

  class ChainService {
    const client: ChainClient
    const c: Node
    ghost var signed: seq<Signing>
    ghost var confirmed: seq<Confirmation>

    constructor (client: ChainClient, c: Node)
      requires client.Valid() && client.accepts == c.env.accepts
      ensures Valid() && this.client == client && this.c == c
      ensures TheWorld() == World(client.signerAccounts, client.keyring, c.ledger, c.clock, [], [])
    {
      this.client, this.c := client, c;
      signed, confirmed := [], [];
    }

    ghost predicate Valid()
      reads client
    {
      client.Valid() && client.accepts == c.env.accepts
    }

    ghost function TheWorld(): World
      reads this, client, c
    {
      World(client.signerAccounts, client.keyring, c.ledger, c.clock, signed, confirmed)
    }

    /** The assumption of the sequence theorems about accounts and keys is one the client keeps. */
    lemma AddressesAreOwn()
      requires Valid()
      ensures OwnAddresses(TheWorld())
    {
    }

    method BroadCastTxAsync(tx: Tx) returns (sent: bool)
      modifies c
      ensures var weather := c.env.weather(old(c.clock));
              && (sent <==> weather.transport && weather.code == 0)
              && (weather.code == 0 ==> c.ledger.pool != [] && c.ledger.pool[|c.ledger.pool| - 1] == tx)
      ensures (TheWorld(), sent) == Broadcast(c.env, old(TheWorld()), tx)
    {
      var code := c.BroadcastTxAsync(tx);
      sent := code == Some(0);
    }

    /** Polls at most thirty times, skipping error replies: the first poll that is answered decides. Code 0
        is returned, any other ends the call; and if no poll of thirty is answered, the call ends. */
    method WaitTx(hash: Tx) returns (r: Outcome<TxResult>)
      modifies c
      ensures IsThirtyPolls(c.env, old(TheWorld()), hash, TheWorld(), r)
      ensures (TheWorld(), r) == Wait(c.env, old(TheWorld()), hash, POLLS)
    {
      hide IsThirtyPolls;
      WaitAnswers(c.env, TheWorld(), hash);
      var i := 0;
      while i < 30
        invariant 0 <= i <= 30
        invariant Wait(c.env, TheWorld(), hash, POLLS - i) == Wait(c.env, old(TheWorld()), hash, POLLS)
      {
        var execResultTx := c.GetTx(hash);
        i := i + 1;
        if execResultTx.None? {
          continue;
        }
        if execResultTx.value.code != 0 {
          return Exit;
        }
        return Ok(execResultTx.value);
      }
      return Exit;
    }

    method DeployContract(signerName: string, fileName: string, gasPrice: uint64) returns (r: Outcome<TxResult>)
      requires Valid()
      modifies this, c
      ensures Valid()
      ensures (TheWorld(), r) == Submission.DeployContract(c.env, old(TheWorld()), signerName, fileName, gasPrice)
    {
      var wasmByteCode := c.env.files(c.clock, fileName);
      if wasmByteCode.None? || wasmByteCode.value == [] {
        return Exit;
      }
      var acc := client.GetAccount(signerName);
      if acc.None? {
        return Exit;
      }
      var msgStore := StoreCode(acc.value.address, wasmByteCode.value);
      var txBytes := client.GetSignedTxBytes(c.clock, signerName, msgStore, gasPrice);
      if !txBytes.Signed? {
        return Exit;
      }
      ghost var w := TheWorld();
      signed := signed + [SigningOf(w, txBytes.tx)];
      var sent := BroadCastTxAsync(txBytes.tx);
      if !sent {
        return Exit;
      }
      var deployResTx := WaitTx(txBytes.tx);
      if deployResTx.Exit? {
        return Exit;
      }
      confirmed := confirmed + [Confirmation(txBytes.tx, deployResTx.value)];
      return deployResTx;
    }

    method InstantiateContract(signerName: string, codeID: uint64, msg: bytes, gasPrice: uint64)
      returns (r: Outcome<TxResult>)
      requires Valid()
      modifies this, c
      ensures Valid()
      ensures (TheWorld(), r) ==
              Submission.InstantiateContract(c.env, old(TheWorld()), signerName, codeID, msg, gasPrice)
    {
      var acc := client.GetAccount(signerName);
      if acc.None? {
        return Exit;
      }
      var msgInst := Instantiate(acc.value.address, codeID, msg);
      var txBytes := client.GetSignedTxBytes(c.clock, signerName, msgInst, gasPrice);
      if !txBytes.Signed? {
        return Exit;
      }
      ghost var w := TheWorld();
      signed := signed + [SigningOf(w, txBytes.tx)];
      var sent := BroadCastTxAsync(txBytes.tx);
      if !sent {
        return Exit;
      }
      var resTx := WaitTx(txBytes.tx);
      if resTx.Exit? {
        return Exit;
      }
      confirmed := confirmed + [Confirmation(txBytes.tx, resTx.value)];
      return resTx;
    }

    /** Establishes the agreement a program starts from. */
    method UpdateAccountSequence(signerName: string) returns (r: SyncOutcome)
      requires Valid()
      modifies client, c
      ensures Valid()
      ensures var weather := c.env.weather(old(c.clock));
              && (r.Synced? <==> && signerName in old(client.signerAccounts)
                                 && weather.transport && weather.code == 0 && weather.decodes)
              && (r.Returned? <==> && signerName in old(client.signerAccounts)
                                   && weather.transport && weather.code == 0 && !weather.decodes)
      ensures client.signerAccounts ==
              if r.Synced?
              then var acc := old(client.signerAccounts)[signerName];
                   old(client.signerAccounts)[signerName := acc.(sequence := Expected(c.ledger, acc.address))]
              else old(client.signerAccounts)
      ensures (TheWorld(), r) == Sync(c.env, old(TheWorld()), signerName)
    {
      var acc := client.GetAccount(signerName);
      if acc.None? {
        return Ended;
      }
      var answer := c.QuerySequence(acc.value.address);
      if answer.None? {
        return Ended;
      }
      if answer.value.Garbled? {
        return Returned;
      }
      var ok := client.SetSequence(signerName, answer.value.value);
      if !ok {
        return Returned;
      }
      return Synced;
    }
  }
}
