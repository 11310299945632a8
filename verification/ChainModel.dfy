/** What the deployers' process is assumed to face: a chain that accepts a transaction only at the
    sequence it expects of the sender, a pool of broadcast transactions it may take up at any
    time, and an index of included transactions that answers queries by hash. */
module ChainModel {
  import opened GoWords
  import opened TxEvents

  type FailCode = c: nat | c != 0 witness 1

  datatype TxResult = TxResult(code: nat, events: seq<Event>)

  datatype Msg =
    | StoreCode(sender: string, wasm: bytes)
    | Instantiate(sender: string, codeId: uint64, payload: bytes)
    | ExecuteContract(sender: string, contract: string, payload: bytes)
    | BankSend(sender: string, to: string, amount: int)

  /** A signed transaction. Encoding and hashing are injective, so the value is its own hash. */
  datatype Tx = Tx(number: uint64, sequence: uint64, fee: int, gas: uint64, msg: Msg)

  datatype Inclusion = Inclusion(tx: Tx, result: TxResult, executed: bool)

  datatype Ledger = Ledger(expected: map<string, uint64>, pool: seq<Tx>, included: seq<Inclusion>)

  /** One act of the chain on the transaction at a pool position: put it in a block and run it,
      put it in a block but refuse it, or forget it. */
  datatype Delivery =
    | Execute(index: nat, result: TxResult)
    | Refuse(index: nat, code: FailCode)
    | Drop(index: nat)

  /** The error code of a transaction signed with an unexpected sequence. */
  const WRONG_SEQUENCE: FailCode := 32

  function Expected(l: Ledger, address: string): uint64 {
    if address in l.expected then l.expected[address] else 0
  }

  function Deliver(l: Ledger, d: Delivery): Ledger {
    if d.index >= |l.pool| then l
    else
      var tx := l.pool[d.index];
      var sender := tx.msg.sender;
      var rest := l.(pool := l.pool[..d.index] + l.pool[d.index + 1..]);
      match d
      case Execute(_, r) =>
        if tx.sequence == Expected(l, sender)
        then rest.(expected := l.expected[sender := Next(tx.sequence)],
                   included := l.included + [Inclusion(tx, r, true)])
        else rest.(included := l.included + [Inclusion(tx, TxResult(WRONG_SEQUENCE, []), false)])
      case Refuse(_, c) =>
        rest.(included := l.included + [Inclusion(tx, TxResult(c, []), false)])
      case Drop(_) =>
        rest
  }

  function Advance(l: Ledger, ds: seq<Delivery>): Ledger
    decreases |ds|
  {
    if ds == [] then l else Advance(Deliver(l, ds[0]), ds[1..])
  }

  /** The result a query by hash finds, if the transaction has been included. */
  function Lookup(included: seq<Inclusion>, tx: Tx): Option<TxResult> {
    if included == [] then None
    else if included[0].tx == tx then Some(included[0].result)
    else Lookup(included[1..], tx)
  }

  /** Every transaction included with code 0 used a sequence the chain has moved past. */
  ghost predicate Past(l: Ledger) {
    forall i :: 0 <= i < |l.included| && l.included[i].result.code == 0 ==>
      l.included[i].tx.sequence < Expected(l, l.included[i].tx.msg.sender)
  }

  /** The same of refused and failed transactions too: none is on record for a sequence to come. */
  ghost predicate NoneAhead(l: Ledger) {
    forall i :: 0 <= i < |l.included| ==>
      l.included[i].tx.sequence < Expected(l, l.included[i].tx.msg.sender)
  }

  ghost predicate PoolBelowWrap(l: Ledger) {
    forall i :: 0 <= i < |l.pool| ==> l.pool[i].sequence + 1 < TWO_64
  }

  /** The chain keeps the first of these by itself, whatever is in its pool and whatever it does, until
      a sequence wraps. */
  lemma {:induction false} AdvanceKeepsPast(l: Ledger, ds: seq<Delivery>)
    requires Past(l) && PoolBelowWrap(l)
    ensures Past(Advance(l, ds)) && PoolBelowWrap(Advance(l, ds))
    decreases |ds|
  {
    if ds != [] {
      var l' := Deliver(l, ds[0]);
      forall i | 0 <= i < |l'.included| && l'.included[i].result.code == 0
        ensures l'.included[i].tx.sequence < Expected(l', l'.included[i].tx.msg.sender)
      {
        assert i < |l.included| ==> l'.included[i] == l.included[i];
      }
      AdvanceKeepsPast(l', ds[1..]);
    }
  }

  lemma {:induction false} LookupAppend(included: seq<Inclusion>, e: Inclusion, tx: Tx)
    ensures Lookup(included + [e], tx) ==
            if Lookup(included, tx).Some? then Lookup(included, tx)
            else if e.tx == tx then Some(e.result) else None
  {
    if included == [] {
      assert [] + [e] == [e];
    } else {
      assert (included + [e])[1..] == included[1..] + [e];
      LookupAppend(included[1..], e, tx);
    }
  }

  lemma {:induction false} LookupIsIncluded(included: seq<Inclusion>, tx: Tx)
    ensures Lookup(included, tx).Some? ==>
              exists i :: 0 <= i < |included|
                          && included[i].tx == tx && included[i].result == Lookup(included, tx).value
  {
    if included != [] && included[0].tx != tx {
      LookupIsIncluded(included[1..], tx);
      if Lookup(included, tx).Some? {
        var tail := included[1..];
        var i :| 0 <= i < |tail| && tail[i].tx == tx && tail[i].result == Lookup(included, tx).value;
        assert included[i + 1] == tail[i];
      }
    }
  }

  lemma {:induction false} LookupMiss(included: seq<Inclusion>, tx: Tx)
    requires forall i :: 0 <= i < |included| ==> included[i].tx != tx
    ensures Lookup(included, tx) == None
  {
    if included != [] {
      LookupMiss(included[1..], tx);
    }
  }

  lemma {:induction false} IdlePoolStaysIdle(l: Ledger, ds: seq<Delivery>)
    requires l.pool == []
    ensures Advance(l, ds) == l
  {
    if ds != [] {
      IdlePoolStaysIdle(l, ds[1..]);
    }
  }

  /** What can have become of the one transaction broadcast to an idle pool. */
  datatype Fate = Waiting | Dropped | Refused(code: FailCode) | Executed(result: TxResult)

  /** The ledger `l` after `tx` alone was broadcast to it and met the given fate. */
  function After(l: Ledger, tx: Tx, f: Fate): Ledger {
    match f
    case Waiting => l.(pool := [tx])
    case Dropped => l
    case Refused(c) => l.(included := l.included + [Inclusion(tx, TxResult(c, []), false)])
    case Executed(r) => l.(expected := l.expected[tx.msg.sender := Next(tx.sequence)],
                           included := l.included + [Inclusion(tx, r, true)])
  }

  function FateAfter(l: Ledger, tx: Tx, f: Fate, ds: seq<Delivery>): Fate {
    if ds == [] || !f.Waiting? then f
    else if ds[0].index != 0 then FateAfter(l, tx, f, ds[1..])
    else match ds[0]
      case Execute(_, r) => if tx.sequence == Expected(l, tx.msg.sender) then Executed(r) else Refused(WRONG_SEQUENCE)
      case Refuse(_, c) => Refused(c)
      case Drop(_) => Dropped
  }

  /** Whatever the chain does and whenever it does it, a lone transaction ends in one of four fates,
      and it is executed only at the expected sequence. */
  lemma {:induction false} AdvanceLone(l: Ledger, tx: Tx, f: Fate, ds: seq<Delivery>)
    requires l.pool == []
    requires f.Executed? ==> tx.sequence == Expected(l, tx.msg.sender)
    ensures Advance(After(l, tx, f), ds) == After(l, tx, FateAfter(l, tx, f, ds))
    ensures FateAfter(l, tx, f, ds).Executed? ==> tx.sequence == Expected(l, tx.msg.sender)
    ensures !f.Waiting? ==> FateAfter(l, tx, f, ds) == f
  {
    var here := After(l, tx, f);
    if ds == [] {
    } else if !f.Waiting? {
      IdlePoolStaysIdle(here, ds);
    } else if ds[0].index != 0 {
      assert Deliver(here, ds[0]) == here;
      AdvanceLone(l, tx, f, ds[1..]);
    } else {
      assert here.pool[..0] + here.pool[1..] == [];
      var next := Deliver(here, ds[0]);
      assert next == After(l, tx, FateAfter(l, tx, f, ds));
      IdlePoolStaysIdle(next, ds[1..]);
    }
  }

  /** A query by hash for a transaction that was new when broadcast answers exactly by its fate. */
  lemma LookupByFate(l: Ledger, tx: Tx, f: Fate)
    requires forall i :: 0 <= i < |l.included| ==> l.included[i].tx != tx
    ensures Lookup(After(l, tx, f).included, tx) ==
            match f
            case Waiting => None
            case Dropped => None
            case Refused(c) => Some(TxResult(c, []))
            case Executed(r) => Some(r)
  {
    LookupMiss(l.included, tx);
    match f
    case Waiting =>
    case Dropped =>
    case Refused(c) => LookupAppend(l.included, Inclusion(tx, TxResult(c, []), false), tx);
    case Executed(r) => LookupAppend(l.included, Inclusion(tx, r, true), tx);
  }

  /** A query for a transaction that had not succeeded before answers with code 0 only if it was executed. */
  lemma SuccessMeansExecuted(l: Ledger, tx: Tx, f: Fate)
    requires forall i :: 0 <= i < |l.included| && l.included[i].tx == tx ==> l.included[i].result.code != 0
    ensures var answer := Lookup(After(l, tx, f).included, tx);
            answer.Some? && answer.value.code == 0 ==> f == Executed(answer.value)
  {
    LookupIsIncluded(l.included, tx);
    match f
    case Waiting =>
    case Dropped =>
    case Refused(c) => LookupAppend(l.included, Inclusion(tx, TxResult(c, []), false), tx);
    case Executed(r) => LookupAppend(l.included, Inclusion(tx, r, true), tx);
  }

  /** The sequences at which the chain executed transactions of an address, in order. */
  function ExecutedSequences(included: seq<Inclusion>, address: string): seq<int> {
    if included == [] then []
    else
      var front := ExecutedSequences(included[..|included| - 1], address);
      var last := included[|included| - 1];
      if last.executed && last.tx.msg.sender == address then front + [last.tx.sequence] else front
  }
}
