/** Reading the code id and contract address out of a transaction result. */
module TxEvents {
  import opened GoWords

  datatype Attribute = Attribute(key: string, value: string)
  datatype Event = Event(kind: string, attributes: seq<Attribute>)

  /** What extraction yields: both texts, or one of the two errors the source returns. */
  datatype Details = Details(codeId: string, address: string) | EventNotFound | EmptyDetails

  predicate Relevant(e: Event) {
    e.kind == "instantiate" || e.kind == "store_code"
  }

  /** `v` is the value of the last attribute with key `key`, or "" when there is none. */
  ghost predicate IsLastValue(attributes: seq<Attribute>, key: string, v: string) {
    || (v == "" && forall i :: 0 <= i < |attributes| ==> attributes[i].key != key)
    || exists i :: 0 <= i < |attributes| && attributes[i].key == key && attributes[i].value == v
                   && forall j :: i < j < |attributes| ==> attributes[j].key != key
  }

  function LastValue(attributes: seq<Attribute>, key: string): string {
    if attributes == [] then ""
    else
      var last := attributes[|attributes| - 1];
      if last.key == key then last.value else LastValue(attributes[..|attributes| - 1], key)
  }

  /** The details an event list denotes, read off its first relevant event. */
  function DetailsOf(events: seq<Event>): Details {
    if events == [] then EventNotFound
    else if !Relevant(events[0]) then DetailsOf(events[1..])
    else
      var id := LastValue(events[0].attributes, "code_id");
      var address := LastValue(events[0].attributes, "_contract_address");
      if id == "" && address == "" then EmptyDetails else Details(id, address)
  }

  lemma {:induction false} LastValueIsLast(attributes: seq<Attribute>, key: string)
    ensures IsLastValue(attributes, key, LastValue(attributes, key))
  {
    if attributes != [] {
      var n := |attributes| - 1;
      if attributes[n].key != key {
        var front := attributes[..n];
        LastValueIsLast(front, key);
        if i :| && 0 <= i < |front| && front[i].key == key && front[i].value == LastValue(front, key)
                && (forall j :: i < j < |front| ==> front[j].key != key) {
          assert attributes[i] == front[i];
          forall j | i < j < |attributes| ensures attributes[j].key != key {
            if j < n { assert front[j] == attributes[j]; }
          }
        } else {
          forall j | 0 <= j < |attributes| ensures attributes[j].key != key {
            if j < n { assert front[j] == attributes[j]; }
          }
        }
      }
    }
  }

  /** `r` is what extraction must yield for `events`, in terms of the events alone: nothing but the first
      event of one of the two kinds counts, the last attribute of each key in it is taken, and it fails
      exactly when there is no such event or both values are empty. */
  ghost predicate IsExtraction(events: seq<Event>, r: Details) {
    && (r.EventNotFound? <==>
          forall i :: 0 <= i < |events| ==> events[i].kind != "store_code" && events[i].kind != "instantiate")
    && forall i ::
         && 0 <= i < |events| && (events[i].kind == "store_code" || events[i].kind == "instantiate")
         && (forall j :: 0 <= j < i ==> events[j].kind != "store_code" && events[j].kind != "instantiate")
         ==> IsReadFrom(events[i].attributes, r)
  }

  /** The details of one event. */
  ghost predicate IsReadFrom(attributes: seq<Attribute>, r: Details) {
    match r
    case EventNotFound => false
    case EmptyDetails => IsLastValue(attributes, "code_id", "") && IsLastValue(attributes, "_contract_address", "")
    case Details(id, address) =>
      && (id != "" || address != "")
      && IsLastValue(attributes, "code_id", id) && IsLastValue(attributes, "_contract_address", address)
  }

  lemma {:induction false} DetailsOfFirstRelevant(events: seq<Event>)
    ensures IsExtraction(events, DetailsOf(events))
    decreases |events|, 1
  {
    if events != [] {
      LastValueIsLast(events[0].attributes, "code_id");
      LastValueIsLast(events[0].attributes, "_contract_address");
      if !Relevant(events[0]) {
        SkipFirst(events);
      }
    }
  }

  lemma SkipFirst(events: seq<Event>)
    requires events != [] && !Relevant(events[0])
    ensures IsExtraction(events, DetailsOf(events))
    decreases |events|, 0
  {
    var tail := events[1..];
    DetailsOfFirstRelevant(tail);
    assert forall j :: 0 <= j < |tail| ==> tail[j] == events[j + 1];
    forall i | && 0 <= i < |events| && (events[i].kind == "store_code" || events[i].kind == "instantiate")
               && (forall j :: 0 <= j < i ==> events[j].kind != "store_code" && events[j].kind != "instantiate")
      ensures IsReadFrom(events[i].attributes, DetailsOf(events))
    {
      assert tail[i - 1] == events[i];
      assert forall j :: 0 <= j < i - 1 ==> tail[j] == events[j + 1];
    }
    if forall i :: 0 <= i < |tail| ==> tail[i].kind != "store_code" && tail[i].kind != "instantiate" {
      forall i | 0 <= i < |events| ensures events[i].kind != "store_code" && events[i].kind != "instantiate" {
        assert i > 0 ==> tail[i - 1] == events[i];
      }
    }
  }

  /** The two nested loops of the source: a `switch` per attribute, a `break` after the first
      relevant event. */
  method ExtractResultTxDetails(events: seq<Event>) returns (r: Details)
    ensures IsExtraction(events, r)
    ensures r == DetailsOf(events)
  {
    DetailsOfFirstRelevant(events);
    var rawContractCodeID := "";
    var rawContractAddress := "";
    var eventFound := false;
    var i := 0;
    while i < |events|
      invariant 0 <= i <= |events|
      invariant !eventFound && rawContractCodeID == "" && rawContractAddress == ""
      invariant DetailsOf(events[i..]) == DetailsOf(events)
    {
      var event := events[i];
      if event.kind == "instantiate" || event.kind == "store_code" {
        var j := 0;
        while j < |event.attributes|
          invariant 0 <= j <= |event.attributes|
          invariant rawContractCodeID == LastValue(event.attributes[..j], "code_id")
          invariant rawContractAddress == LastValue(event.attributes[..j], "_contract_address")
        {
          var attr := event.attributes[j];
          assert event.attributes[..j + 1][..j] == event.attributes[..j];
          if attr.key == "_contract_address" {
            rawContractAddress := attr.value;
          } else if attr.key == "code_id" {
            rawContractCodeID := attr.value;
          }
          j := j + 1;
        }
        assert event.attributes[..j] == event.attributes;
        eventFound := true;
        break;
      }
      i := i + 1;
    }
    if !eventFound {
      return EventNotFound;
    }
    if rawContractAddress == "" && rawContractCodeID == "" {
      return EmptyDetails;
    }
    return Details(rawContractCodeID, rawContractAddress);
  }

  /** An instance in the usual shape of a result: the leading "message" event is skipped, and of two
      attributes with one key the last is taken. */
  lemma UsualResult()
    ensures DetailsOf([Event("message", [Attribute("code_id", "9"), Attribute("action", "s")]),
                       Event("store_code", [Attribute("code_id", "4"), Attribute("code_id", "5")]),
                       Event("instantiate", [Attribute("_contract_address", "x")])]) == Details("5", "")
  {
    var message := Event("message", [Attribute("code_id", "9"), Attribute("action", "s")]);
    var store := Event("store_code", [Attribute("code_id", "4"), Attribute("code_id", "5")]);
    var instantiate := Event("instantiate", [Attribute("_contract_address", "x")]);
    assert [message, store, instantiate][1..] == [store, instantiate];
    assert store.attributes[..1] == [Attribute("code_id", "4")];
    assert LastValue([Attribute("code_id", "4")], "_contract_address") == "" by {
      assert [Attribute("code_id", "4")][..0] == [];
    }
  }

  predicate IsDigit(c: char) {
    '0' <= c <= '9'
  }

  predicate IsDecimal(s: string) {
    s != "" && forall i :: 0 <= i < |s| ==> IsDigit(s[i])
  }

  /** The number a decimal text denotes. */
  function DecimalValue(s: string): nat
    requires forall i :: 0 <= i < |s| ==> IsDigit(s[i])
  {
    if s == "" then 0
    else
      var last := s[|s| - 1];
      assert IsDigit(last);
      10 * DecimalValue(s[..|s| - 1]) + (last as int - '0' as int)
  }

  /** strconv.ParseUint(s, 10, 64): a non-empty run of digits whose value fits in 64 bits. */
  function ParseUint(s: string): Option<uint64> {
    if IsDecimal(s) && DecimalValue(s) < TWO_64 then Some(DecimalValue(s)) else None
  }

  // ----- what a parsed number has to do with its text -----

  const DIGITS: string := "0123456789"

  /** The decimal text of a number, without leading zeros. */
  function DecimalText(n: nat): (s: string)
    ensures s != ""
  {
    if n < 10 then [DIGITS[n]] else DecimalText(n / 10) + [DIGITS[n % 10]]
  }

  function Zeros(z: nat): string {
    seq(z, i => '0')
  }

  /** `s` is the decimal text of `n` behind any number of zeros. */
  ghost predicate IsTextOf(s: string, n: nat) {
    exists z: nat :: s == Zeros(z) + DecimalText(n)
  }

  lemma DigitValue(n: nat)
    requires n < 10
    ensures IsDigit(DIGITS[n]) && DIGITS[n] as int - '0' as int == n
  {
  }

  lemma DecimalValueAppend(s: string, c: char)
    requires (forall i :: 0 <= i < |s| ==> IsDigit(s[i])) && IsDigit(c)
    ensures forall i :: 0 <= i < |s + [c]| ==> IsDigit((s + [c])[i])
    ensures DecimalValue(s + [c]) == 10 * DecimalValue(s) + (c as int - '0' as int)
  {
    assert (s + [c])[..|s + [c]| - 1] == s;
  }

  lemma {:induction false} TextHasValue(z: nat, n: nat)
    ensures IsDecimal(Zeros(z) + DecimalText(n)) && DecimalValue(Zeros(z) + DecimalText(n)) == n
    decreases n
  {
    DigitValue(n % 10);
    var front := Zeros(z) + (if n < 10 then "" else DecimalText(n / 10));
    assert Zeros(z) + DecimalText(n) == front + [DIGITS[n % 10]];
    if n < 10 {
      assert front == Zeros(z);
      ZerosHaveNoValue(z);
    } else {
      TextHasValue(z, n / 10);
    }
    DecimalValueAppend(front, DIGITS[n % 10]);
  }

  lemma {:induction false} ZerosHaveNoValue(z: nat)
    ensures (forall i :: 0 <= i < z ==> IsDigit(Zeros(z)[i])) && DecimalValue(Zeros(z)) == 0
  {
    if z > 0 {
      ZerosHaveNoValue(z - 1);
      assert Zeros(z) == Zeros(z - 1) + ['0'];
      DecimalValueAppend(Zeros(z - 1), '0');
    }
  }

  /** One more digit behind a text. */
  lemma TextAppend(s: string, v: nat, d: nat)
    requires IsTextOf(s, v) && d < 10
    ensures IsTextOf(s + [DIGITS[d]], 10 * v + d)
  {
    var z: nat :| s == Zeros(z) + DecimalText(v);
    if v == 0 {
      assert s + [DIGITS[d]] == Zeros(z + 1) + DecimalText(d);
    } else {
      assert (10 * v + d) / 10 == v && (10 * v + d) % 10 == d;
      assert DecimalText(10 * v + d) == DecimalText(v) + [DIGITS[d]];
      assert s + [DIGITS[d]] == Zeros(z) + DecimalText(10 * v + d);
    }
  }

  lemma DigitOf(c: char)
    requires IsDigit(c)
    ensures 0 <= c as int - '0' as int < 10 && DIGITS[c as int - '0' as int] == c
  {
  }

  lemma TextOfDigit(d: nat)
    requires d < 10
    ensures IsTextOf([DIGITS[d]], d)
  {
    assert [DIGITS[d]] == Zeros(0) + DecimalText(d);
  }

  lemma NoDigits()
    ensures DecimalValue("") == 0
  {
  }

  /** Every run of digits is the text of its value behind some zeros. */
  lemma {:induction false} DigitsAreText(s: string)
    requires IsDecimal(s)
    ensures IsTextOf(s, DecimalValue(s))
    decreases |s|
  {
    hide IsTextOf, DecimalValue, IsDigit, DecimalText;
    var front, last := s[..|s| - 1], s[|s| - 1];
    assert s == front + [last] && IsDigit(last);
    var d := last as int - '0' as int;
    DigitOf(last);
    DecimalValueAppend(front, last);
    if front == "" {
      NoDigits();
      assert s == [DIGITS[d]];
      TextOfDigit(d);
    } else {
      DigitsAreText(front);
      TextAppend(front, DecimalValue(front), d);
    }
  }

  /** Parsing, exactly: a text parses to `n` if and only if it is the decimal text of `n`, behind any
      number of zeros, and n is below 2^64. */
  lemma ParseUintIff(s: string, n: nat)
    ensures ParseUint(s) == Some(n) <==> n < 0x1_0000_0000_0000_0000 && IsTextOf(s, n)
  {
    if IsTextOf(s, n) {
      var z: nat :| s == Zeros(z) + DecimalText(n);
      TextHasValue(z, n);
    }
    if IsDecimal(s) {
      DigitsAreText(s);
    }
  }

  lemma ParsedIsText(s: string)
    ensures ParseUint(s).Some? ==> IsTextOf(s, ParseUint(s).value)
  {
    if ParseUint(s).Some? {
      ParseUintIff(s, ParseUint(s).value);
    }
  }

  /** It fails if and only if the text is empty, has a character that is no digit, or is the text of a
      number from 2^64 on. */
  lemma ParseUintFailsIff(s: string)
    ensures ParseUint(s) == None <==>
            || s == ""
            || (exists i :: 0 <= i < |s| && !('0' <= s[i] <= '9'))
            || (exists n: nat :: n >= 0x1_0000_0000_0000_0000 && IsTextOf(s, n))
  {
    if IsDecimal(s) {
      DigitsAreText(s);
      forall n: nat | IsTextOf(s, n) ensures n == DecimalValue(s) {
        var z: nat :| s == Zeros(z) + DecimalText(n);
        TextHasValue(z, n);
      }
    } else if n: nat :| n >= 0x1_0000_0000_0000_0000 && IsTextOf(s, n) {
      var z: nat :| s == Zeros(z) + DecimalText(n);
      TextHasValue(z, n);
    }
  }

  lemma ParseUintInstances()
    ensures ParseUint("12") == Some(12) && ParseUint("00907") == Some(907)
    ensures ParseUint("") == None && ParseUint("0x1f") == None && ParseUint("-1") == None
  {
    assert DecimalText(12) == "12" && "12" == Zeros(0) + "12";
    assert IsTextOf("12", 12);
    ParseUintIff("12", 12);
    assert DecimalText(90) == "90" && DecimalText(907) == "907" && "00907" == Zeros(2) + DecimalText(907);
    assert IsTextOf("00907", 907);
    ParseUintIff("00907", 907);
    assert !IsDigit("0x1f"[1]) && !IsDigit("-1"[0]);
  }

  /** The details carry a code id, and it is the decimal text of `id`. */
  ghost predicate DenotesId(d: Details, id: uint64) {
    d.Details? && IsTextOf(d.codeId, id)
  }

  /** The text the source hands to ParseUint after a store transaction: it ignores the extraction
      error, and a failed extraction leaves the empty text. */
  function RawCodeId(d: Details): string {
    if d.Details? then d.codeId else ""
  }
}
