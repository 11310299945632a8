/** The submit-and-drain loop itself, over one backing array pruned in place. */
module KVDrain {
  import opened GoWords
  import opened GoSlices
  import opened KVStore
  import opened KVTheorems

  /** The four checks of the source on one query. */
  method ABCIQuery(o: Answers, t: nat, k: bytes, v: bytes) returns (ok: bool)
    ensures ok <==> o(t, k).Answer? && o(t, k).code == 0 && o(t, k).key == k && o(t, k).value == v
    ensures ok <==> Hit(o, t, KV(k, v))
  {
    var abcires := o(t, k);
    if abcires.Unreachable? {
      return false;
    }
    if abcires.code != 0 {
      return false;
    }
    if abcires.key != k {
      return false;
    }
    if abcires.value != v {
      return false;
    }
    return true;
  }

  /** The cells of an array after `append(kvs[:i], kvs[i+1:]...)` on its first `live` cells: those
      after `i` have moved down by one, and the cell that falls off the end keeps its value. */
  function Deleted(cells: seq<KV>, live: nat, i: nat): seq<KV>
    requires i < live <= |cells|
  {
    cells[..i] + cells[i + 1..live] + cells[live - 1..]
  }

  /** `kvs = append(kvs[:i], kvs[i+1:]...)`: the copy within one backing array. */
  method DeleteAt(kvs: array<KV>, live: nat, i: nat)
    requires i < live <= kvs.Length
    modifies kvs
    ensures forall c :: 0 <= c < i ==> kvs[c] == old(kvs[c])
    ensures forall c :: i <= c < live - 1 ==> kvs[c] == old(kvs[c + 1])
    ensures forall c :: live - 1 <= c < kvs.Length ==> kvs[c] == old(kvs[c])
    ensures kvs[..] == Deleted(old(kvs[..]), live, i)
  {
    ghost var cells := kvs[..];
    var j := i;
    while j + 1 < live
      invariant i <= j < live
      invariant forall c :: 0 <= c < i ==> kvs[c] == cells[c]
      invariant forall c :: i <= c < j ==> kvs[c] == cells[c + 1]
      invariant forall c :: j <= c < kvs.Length ==> kvs[c] == cells[c]
    {
      kvs[j] := kvs[j + 1];
      j := j + 1;
    }
  }

  /** The transactions submitted: drawn key and value pairs in order. */
  function Drawn(draws: nat -> KV, num: nat): (q: seq<KV>)
    ensures |q| == num
  {
    if num == 0 then [] else Drawn(draws, num - 1) + [draws(num - 1)]
  }

  /** The node took the transaction: its reply arrived with code 0. */
  predicate Accepted(replies: (nat, bytes) -> Option<nat>, i: nat, e: KV) {
    replies(i, Encode(e.k, e.v)) == Some(0)
  }

  /** The position from `i` on of the first pair the node does not take; `num` if it takes them all. */
  function FirstRefused(draws: nat -> KV, replies: (nat, bytes) -> Option<nat>, i: nat, num: nat): (r: nat)
    requires i <= num
    ensures i <= r <= num
    decreases num - i
  {
    if i == num || !Accepted(replies, i, draws(i)) then i else FirstRefused(draws, replies, i + 1, num)
  }

  lemma {:induction false} AllTakenIff(draws: nat -> KV, replies: (nat, bytes) -> Option<nat>, i: nat, num: nat)
    requires i <= num
    ensures FirstRefused(draws, replies, i, num) == num <==>
            forall j :: i <= j < num ==> replies(j, draws(j).k + [EQUALS] + draws(j).v) == Some(0)
    decreases num - i
  {
    if i < num && Accepted(replies, i, draws(i)) {
      AllTakenIff(draws, replies, i + 1, num);
    }
  }

  lemma FirstRefusedStep(draws: nat -> KV, replies: (nat, bytes) -> Option<nat>, i: nat, num: nat)
    requires i < num
    ensures FirstRefused(draws, replies, i, num) ==
            if replies(i, Encode(draws(i).k, draws(i).v)) == Some(0)
            then FirstRefused(draws, replies, i + 1, num) else i
  {
  }

  lemma AllTaken(draws: nat -> KV, replies: (nat, bytes) -> Option<nat>, num: nat)
    ensures FirstRefused(draws, replies, num, num) == num
  {
  }

  /** The spare capacities the allocator gives the four slices behind one transaction text. */
  datatype Spare = Spare(k: nat, v: nat, e: nat, t: nat)

  /** `text` is the key, one '=', and the value. */
  ghost predicate IsText(text: bytes, e: KV) {
    && |text| == |e.k| + 1 + |e.v|
    && text[..|e.k|] == e.k && text[|e.k|] as int == '=' as int && text[|e.k| + 1..] == e.v
  }

  /** `texts` are the transactions broadcast, one per draw in order: all `num` if the node replied to each
      with code 0, and otherwise up to the first to which it did not. */
  ghost predicate Broadcasts(draws: nat -> KV, replies: (nat, bytes) -> Option<nat>, num: nat,
                             texts: seq<bytes>, submitted: bool)
  {
    && |texts| <= num
    && (forall i :: 0 <= i < |texts| ==> IsText(texts[i], draws(i)))
    && (forall i :: 0 <= i < |texts| - 1 ==> replies(i, texts[i]) == Some(0))
    && if submitted then |texts| == num && (num > 0 ==> replies(num - 1, texts[num - 1]) == Some(0))
       else texts != [] && replies(|texts| - 1, texts[|texts| - 1]) != Some(0)
  }

  /** The submission loop: fills the array with the drawn pairs, or gives up at the first one refused. */
  method SubmitAll(draws: nat -> KV, spare: nat -> Spare, replies: (nat, bytes) -> Option<nat>, num: nat)
    returns (submitted: bool, kvs: array<KV>, ghost texts: seq<bytes>)
    ensures fresh(kvs) && kvs.Length == num
    ensures Broadcasts(draws, replies, num, texts, submitted)
    ensures submitted ==> forall i :: 0 <= i < num ==> kvs[i] == draws(i)
    ensures submitted <==> FirstRefused(draws, replies, 0, num) == num
    ensures submitted ==> kvs[..] == Drawn(draws, num)
  {
    hide Drawn, FirstRefused, Encode;
    kvs := new KV[num];
    texts := [];
    AllTaken(draws, replies, num);
    var i := 0;
    while i < num
      invariant 0 <= i <= num == kvs.Length && |texts| == i
      invariant forall c :: 0 <= c < i ==> kvs[c] == draws(c)
      invariant forall c :: 0 <= c < i ==> IsText(texts[c], draws(c)) && replies(c, texts[c]) == Some(0)
      invariant FirstRefused(draws, replies, 0, num) == FirstRefused(draws, replies, i, num)
    {
      var drawn := draws(i);
      var room := spare(i);
      var k, v, tx := MakeTxKV(drawn.k, drawn.v, room.k, room.v, room.e, room.t);
      texts := texts + [Content(tx)];
      FirstRefusedStep(draws, replies, i, num);
      var res := replies(i, Content(tx));
      if res.None? {
        return false, kvs, texts;
      }
      if res.value != 0 {
        return false, kvs, texts;
      }
      kvs[i] := KV(Content(k), Content(v));
      i := i + 1;
    }
    IsDrawn(draws, kvs[..]);
    return true, kvs, texts;
  }

  lemma {:induction false} IsDrawn(draws: nat -> KV, q: seq<KV>)
    requires forall i :: 0 <= i < |q| ==> q[i] == draws(i)
    ensures q == Drawn(draws, |q|)
  {
    if q != [] {
      IsDrawn(draws, q[..|q| - 1]);
    }
  }

  lemma {:induction false} DrawnAt(draws: nat -> KV, num: nat, i: nat)
    requires i < num
    ensures Drawn(draws, num)[i] == draws(i)
  {
    if i < num - 1 {
      DrawnAt(draws, num - 1, i);
    }
  }

  /** What the cells of an array that held `q` look like once `d` heads are gone: the live cells, first,
      hold `q` from position `d` on, and every stale cell behind them holds the last entry of `q`. */
  function Pruned(q: seq<KV>, d: nat): (cells: seq<KV>)
    requires d <= |q|
    ensures |cells| == |q|
  {
    seq(|q|, c requires 0 <= c < |q| => if c < |q| - d then q[d + c] else q[|q| - 1])
  }

  /** Deleting cell 0 in place pops the head of the sequence that the live cells hold. */
  lemma DeletionPopsTheHead(q: seq<KV>, d: nat)
    requires d < |q|
    ensures Pruned(q, d)[0] == q[d]
    ensures Deleted(Pruned(q, d), |q| - d, 0) == Pruned(q, d + 1)
  {
  }

  lemma NothingPruned(q: seq<KV>)
    ensures Pruned(q, 0) == q
  {
  }

  lemma AttemptOnNothing(o: Answers, q: seq<KV>, t: nat)
    ensures Attempt(o, q, |q|, t) == (|q|, t)
  {
  }

  /** The inner loop of one attempt: queries the entry at `i`, stops at the first miss, and removes
      the entry in place otherwise. It pops the head of the live queue exactly as Attempt does. */
  method PruneAttempt(o: Answers, kvs: array<KV>, ghost q: seq<KV>, live0: nat, next0: nat)
    returns (live: nat, next: nat)
    requires live0 <= |q| && kvs[..] == Pruned(q, |q| - live0)
    modifies kvs
    ensures live <= live0 && kvs[..] == Pruned(q, |q| - live)
    ensures (|q| - live, next) == Attempt(o, q, |q| - live0, next0)
  {
    hide *;
    live, next := live0, next0;
    ghost var d := |q| - live;
    var i := 0;
    while i < live
      invariant i == 0 && live <= live0 && d == |q| - live
      invariant kvs[..] == Pruned(q, d)
      invariant Attempt(o, q, d, next) == Attempt(o, q, |q| - live0, next0)
      decreases live
    {
      DeletionPopsTheHead(q, d);
      assert kvs[i] == kvs[..][0] == q[d];
      var ok := ABCIQuery(o, next, kvs[i].k, kvs[i].v);
      AttemptStep(o, q, d, next);
      next := next + 1;
      if !ok {
        return;
      }
      DeleteAt(kvs, live, i);
      live, d := live - 1, d + 1;
      i := i - 1;
      i := i + 1;
    }
    AttemptOnNothing(o, q, next);
  }

  /** What the remaining attempts achieve, apart from the misses along the way. */
  ghost function Outcome(o: Answers, q: seq<KV>, d: nat, t: nat, left: nat): (nat, nat, bool)
    requires d <= |q|
  {
    var r := Drain(o, q, d, t, left);
    (r.removed, r.next, r.announced)
  }

  lemma OutcomeOfAttempt(o: Answers, q: seq<KV>, d: nat, t: nat, left: nat)
    requires d < |q| && left > 0
    ensures var (d1, t1) := Attempt(o, q, d, t);
            Outcome(o, q, d, t, left) == Outcome(o, q, d1, t1, left - 1)
  {
  }

  lemma OutcomeAtRest(o: Answers, q: seq<KV>, d: nat, t: nat, left: nat)
    requires d <= |q|
    ensures left == 0 ==> Outcome(o, q, d, t, left) == (d, t, false)
    ensures left > 0 && d == |q| ==> Outcome(o, q, d, t, left) == (d, t, true)
  {
  }

  /** Up to `attempts` attempts on the full array; announces success when one begins with nothing left. */
  method DrainInPlace(o: Answers, kvs: array<KV>, attempts: nat) returns (live: nat, next: nat, announced: bool)
    modifies kvs
    ensures live <= kvs.Length && kvs[..] == Pruned(old(kvs[..]), kvs.Length - live)
    ensures Outcome(o, old(kvs[..]), 0, 0, attempts) == (kvs.Length - live, next, announced)
  {
    hide *;
    ghost var q := kvs[..];
    NothingPruned(q);
    live, next, announced := kvs.Length, 0, false;
    var j := 0;
    while j < attempts
      invariant 0 <= j <= attempts && !announced
      invariant live <= |q| && kvs[..] == Pruned(q, |q| - live)
      invariant Outcome(o, q, 0, 0, attempts) == Outcome(o, q, |q| - live, next, attempts - j)
    {
      if live == 0 {
        announced := true;
        OutcomeAtRest(o, q, |q|, next, attempts - j);
        return;
      }
      OutcomeOfAttempt(o, q, |q| - live, next, attempts - j);
      live, next := PruneAttempt(o, kvs, q, live, next);
      j := j + 1;
    }
    OutcomeAtRest(o, q, |q| - live, next, 0);
  }

  /** At most one query per entry and one more per attempt. */
  lemma QueriesBound(o: Answers, q: seq<KV>, attempts: nat)
    ensures Outcome(o, q, 0, 0, attempts).1 <= |q| + attempts
  {
    DrainShape(o, q, 0, 0, attempts);
  }

  /** The array when `live` of `num` drawn pairs are left: the live cells hold the last `live` pairs drawn,
      and every stale cell behind them the last one. */
  ghost predicate Remaining(draws: nat -> KV, num: nat, cells: seq<KV>, live: nat) {
    && live <= num == |cells|
    && (forall i :: 0 <= i < live ==> cells[i] == draws(num - live + i))
    && (forall i :: live <= i < num ==> cells[i] == draws(num - 1))
  }

  lemma PrunedIsRemaining(draws: nat -> KV, num: nat, live: nat)
    requires live <= num
    ensures Remaining(draws, num, Pruned(Drawn(draws, num), num - live), live)
  {
    forall i | 0 <= i < num ensures Drawn(draws, num)[i] == draws(i) {
      DrawnAt(draws, num, i);
    }
  }

  // ----- from the texts sent to the list emptied -----

  /** The store after the transaction texts have been applied in order. */
  function ApplyTexts(s: Store, texts: seq<bytes>): Store {
    if texts == [] then s else ApplyTx(ApplyTexts(s, texts[..|texts| - 1]), texts[|texts| - 1])
  }

  lemma {:induction false} TextsAreEntries(base: Store, draws: nat -> KV, texts: seq<bytes>)
    requires forall i :: 0 <= i < |texts| ==> IsText(texts[i], draws(i))
    ensures ApplyTexts(base, texts) == ApplyAll(base, Drawn(draws, |texts|))
  {
    if texts != [] {
      var n := |texts| - 1;
      TextsAreEntries(base, draws, texts[..n]);
      var e, text := draws(n), texts[n];
      assert IsText(text, e);
      assert text == text[..|e.k|] + [text[|e.k|]] + text[|e.k| + 1..] == Encode(e.k, e.v);
      assert Drawn(draws, n + 1)[..n] == Drawn(draws, n);
    }
  }

  /** No drawn key contains '='. */
  ghost predicate PlainDraws(draws: nat -> KV, num: nat) {
    forall i, j :: 0 <= i < num && 0 <= j < |draws(i).k| ==> draws(i).k[j] as int != '=' as int
  }

  /** No key was drawn with two different values. */
  ghost predicate OneValuePerKey(draws: nat -> KV, num: nat) {
    forall i, j :: 0 <= i < num && 0 <= j < num && draws(i).k == draws(j).k ==> draws(i).v == draws(j).v
  }

  /** Round trip: against a node that has applied exactly the transaction texts sent, the drain of thirty
      attempts empties the list if and only if no key was drawn with two values, and announces it then. */
  ghost predicate EmptiesIffOneValueEach(draws: nat -> KV, num: nat, texts: seq<bytes>, o: Answers,
                                         live: nat, announced: bool)
  {
    forall base: Store :: PlainDraws(draws, num) && Static(o, ApplyTexts(base, texts)) ==>
      && (announced <==> live == 0)
      && (live == 0 <==> OneValuePerKey(draws, num))
  }

  lemma OneValueOfDrawn(draws: nat -> KV, num: nat)
    ensures OneValueEach(Drawn(draws, num)) <==> OneValuePerKey(draws, num)
    ensures PlainDraws(draws, num) ==> PlainKeys(Drawn(draws, num))
  {
    var q := Drawn(draws, num);
    forall i | 0 <= i < num ensures q[i] == draws(i) {
      DrawnAt(draws, num, i);
    }
    if PlainDraws(draws, num) {
      forall i | 0 <= i < |q| ensures EQUALS !in q[i].k {
        assert q[i] == draws(i);
      }
    }
    if OneValueEach(q) {
      forall i, j | 0 <= i < num && 0 <= j < num && draws(i).k == draws(j).k ensures draws(i).v == draws(j).v {
        assert q[i] == draws(i) && q[j] == draws(j);
      }
    }
  }

  lemma RoundTrip(draws: nat -> KV, replies: (nat, bytes) -> Option<nat>, num: nat, texts: seq<bytes>, o: Answers)
    requires Broadcasts(draws, replies, num, texts, true)
    ensures var (removed, _, announced) := Outcome(o, Drawn(draws, num), 0, 0, 30);
            removed <= num && EmptiesIffOneValueEach(draws, num, texts, o, num - removed, announced)
  {
    var q := Drawn(draws, num);
    var (removed, _, announced) := Outcome(o, q, 0, 0, 30);
    DrainShape(o, q, 0, 0, 30);
    forall base: Store | PlainDraws(draws, num) && Static(o, ApplyTexts(base, texts))
      ensures (announced <==> num - removed == 0) && (num - removed == 0 <==> OneValuePerKey(draws, num))
    {
      TextsAreEntries(base, draws, texts);
      OneValueOfDrawn(draws, num);
      DrainStopsAtOverwrittenLater(o, base, q);
    }
  }

  /** Submits `num` drawn pairs, stopping for good at the first one refused; then drains in at most
      thirty attempts. The live cells are the last pairs drawn, those not yet removed, and every stale cell
      holds the last pair; the removals, the number of the next query and the announcement are those of
      the specification; at most num + 30 queries are made; and against a node that has applied exactly
      what was sent, the list is emptied, and announced, if and only if no key was drawn with two values. */
  method GenerateTXSAsync(draws: nat -> KV, spare: nat -> Spare, replies: (nat, bytes) -> Option<nat>,
                          o: Answers, num: nat)
    returns (submitted: bool, kvs: array<KV>, live: nat, next: nat, announced: bool, ghost texts: seq<bytes>)
    ensures Broadcasts(draws, replies, num, texts, submitted)
    ensures submitted <==> FirstRefused(draws, replies, 0, num) == num
    ensures kvs.Length == num && live <= num
    ensures submitted ==> Remaining(draws, num, kvs[..], live)
    ensures submitted ==> Outcome(o, Drawn(draws, num), 0, 0, 30) == (num - live, next, announced)
    ensures submitted ==> next <= num + 30
    ensures submitted ==> EmptiesIffOneValueEach(draws, num, texts, o, live, announced)
    ensures !submitted ==> !announced && next == 0
  {
    hide *;
    submitted, kvs, texts := SubmitAll(draws, spare, replies, num);
    live, next, announced := num, 0, false;
    if !submitted {
      return;
    }
    ghost var q := kvs[..];
    live, next, announced := DrainInPlace(o, kvs, 30);
    assert Outcome(o, q, 0, 0, 30) == (num - live, next, announced);
    QueriesBound(o, q, 30);
    PrunedIsRemaining(draws, num, live);
    RoundTrip(draws, replies, num, texts, o);
  }
}
