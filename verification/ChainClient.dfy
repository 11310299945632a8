/** The client that owns the sequence counters and signs with them. */
module ChainClients {
  import opened GoWords
  import opened ChainModel
  import opened Submission

  class ChainClient {
    var signerAccounts: map<string, AccountInfo>
    /** The name under which the key of each address is held. */
    var keyring: map<string, string>
    /** Which transactions the SDK builds, signs and encodes without error, and when. */
    const accepts: (nat, Tx) -> bool
    /** The address of a mnemonic, or None when key derivation fails. */
    const derive: string -> Option<string>

    ghost predicate Valid()
      reads this
    {
      && (forall n :: n in signerAccounts ==>
            && signerAccounts[n].name == n
            && signerAccounts[n].address in keyring
            && keyring[signerAccounts[n].address] == n)
    }

    constructor (accepts: (nat, Tx) -> bool, derive: string -> Option<string>)
      ensures Valid() && signerAccounts == map[] && keyring == map[]
      ensures this.accepts == accepts && this.derive == derive
    {
      this.accepts, this.derive := accepts, derive;
      signerAccounts, keyring := map[], map[];
    }

    /** Adds a fresh account; `false` is zap's Fatal. The keyring refuses a name or an address it
        already holds, which is why distinct accounts have distinct addresses. */
    method AddAccount(name: string, mnemonic: string, sequence: uint64, number: uint64) returns (ok: bool)
      requires Valid()
      modifies this
      ensures Valid()
      ensures ok <==> derive(mnemonic).Some? && derive(mnemonic).value !in old(keyring) && name !in old(keyring).Values
      ensures ok ==> signerAccounts == old(signerAccounts)[name := AccountInfo(name, mnemonic, sequence, number,
                                                                                   derive(mnemonic).value)]
      ensures ok ==> name !in old(signerAccounts) && keyring == old(keyring)[derive(mnemonic).value := name]
      ensures !ok ==> signerAccounts == old(signerAccounts) && keyring == old(keyring)
    {
      var address := derive(mnemonic);
      if address.None? || address.value in keyring || name in keyring.Values {
        return false;
      }
      assert forall n :: n in signerAccounts ==> keyring[signerAccounts[n].address] in keyring.Values;
      keyring := keyring[address.value := name];
      signerAccounts := signerAccounts[name := AccountInfo(name, mnemonic, sequence, number, address.value)];
      return true;
    }

    method GetAccount(name: string) returns (acc: Option<AccountInfo>)
      ensures acc == if name in signerAccounts then Some(signerAccounts[name]) else None
    {
      if name in signerAccounts {
        acc := Some(signerAccounts[name]);
      } else {
        acc := None;
      }
    }

    /** Copies the entry out of the map, increments, and stores it back; every other account and
        every other field keeps its value. */
    method IncreaseSequence(name: string) returns (ok: bool)
      requires Valid()
      modifies this`signerAccounts
      ensures Valid()
      ensures ok <==> name in old(signerAccounts)
      ensures ok ==> signerAccounts == old(signerAccounts)[name := old(signerAccounts)[name].(
                                         sequence := Next(old(signerAccounts)[name].sequence))]
      ensures !ok ==> signerAccounts == old(signerAccounts)
    {
      var acc := GetAccount(name);
      if acc.None? {
        return false;
      }
      signerAccounts := signerAccounts[name := acc.value.(sequence := Next(acc.value.sequence))];
      return true;
    }

    method SetSequence(name: string, seq': uint64) returns (ok: bool)
      requires Valid()
      modifies this`signerAccounts
      ensures Valid()
      ensures ok <==> name in old(signerAccounts)
      ensures ok ==> signerAccounts == old(signerAccounts)[name := old(signerAccounts)[name].(sequence := seq')]
      ensures !ok ==> signerAccounts == old(signerAccounts)
    {
      var acc := GetAccount(name);
      if acc.None? {
        return false;
      }
      signerAccounts := signerAccounts[name := acc.value.(sequence := seq')];
      return true;
    }

    /** Signs with the sequence now in the account map, whatever copies of the account exist elsewhere;
        `t` is the moment of signing. */
    method GetSignedTxBytes(t: nat, signerAccountName: string, msg: Msg, gasPriceOverride: uint64)
      returns (r: SignOutcome)
      ensures r.Signed? ==>
                && signerAccountName in keyring.Values && signerAccountName in signerAccounts
                && gasPriceOverride < TWO_63 && accepts(t, r.tx)
                && r.tx.number == signerAccounts[signerAccountName].number
                && r.tx.sequence == signerAccounts[signerAccountName].sequence
                && r.tx.fee == (if gasPriceOverride == 0 then 100000 else gasPriceOverride)
                && r.tx.gas == 2 * r.tx.fee && r.tx.msg == msg
      ensures r.SignPanicked? <==>
                signerAccountName in keyring.Values && signerAccountName in signerAccounts && gasPriceOverride >= TWO_63
      ensures r.SignFailed? <==>
                || signerAccountName !in keyring.Values || signerAccountName !in signerAccounts
                || (gasPriceOverride < TWO_63
                    && var acc := signerAccounts[signerAccountName];
                    var fee := if gasPriceOverride == 0 then 100000 else gasPriceOverride;
                    !accepts(t, Tx(acc.number, acc.sequence, fee, 2 * fee, msg)))
      ensures r == SignTx(accepts, t, signerAccounts, keyring.Values, signerAccountName, msg, gasPriceOverride)
    {
      if signerAccountName !in keyring.Values {
        return SignFailed;
      }
      var acc := GetAccount(signerAccountName);
      if acc.None? {
        return SignFailed;
      }
      var gasPrice := DEFAULT_FEE;
      if gasPriceOverride != 0 {
        gasPrice := ToInt64(gasPriceOverride);
      }
      if gasPrice < 0 {
        return SignPanicked;
      }
      var tx := Tx(acc.value.number, acc.value.sequence, gasPrice, gasPrice * 2, msg);
      if !accepts(t, tx) {
        return SignFailed;
      }
      return Signed(tx);
    }
  }
}
