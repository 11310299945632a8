/** Go byte slices over shared backing arrays, and the transaction text built from them. */
module GoSlices {
  import opened GoWords

  const EQUALS: byte := 61

  /** A slice starting at the first cell of its backing array; its capacity is the whole array. */
  datatype Slice = Slice(data: array<byte>, len: nat)

  ghost predicate ValidSlice(s: Slice) {
    s.len <= s.data.Length
  }

  function Content(s: Slice): bytes
    requires ValidSlice(s)
    reads s.data
  {
    s.data[..s.len]
  }

  /** `[]byte(text)`, with whatever spare capacity the allocator happens to give. */
  method FromText(text: bytes, spare: nat) returns (s: Slice)
    ensures fresh(s.data) && ValidSlice(s) && s.data.Length == |text| + spare && Content(s) == text
  {
    var data := new byte[|text| + spare];
    forall i | 0 <= i < |text| {
      data[i] := text[i];
    }
    s := Slice(data, |text|);
  }

  /** `append(s, t...)`: in place when the spare capacity suffices, else into a new array. */
  method Append(s: Slice, t: Slice, spare: nat) returns (r: Slice)
    requires ValidSlice(s) && ValidSlice(t) && s.data != t.data
    modifies s.data
    ensures ValidSlice(r) && Content(r) == old(Content(s)) + old(Content(t))
    ensures Content(s) == old(Content(s))
    ensures if s.len + t.len <= s.data.Length then r.data == s.data else fresh(r.data)
  {
    var data := s.data;
    if s.len + t.len > data.Length {
      data := new byte[s.len + t.len + spare];
      forall i | 0 <= i < s.len {
        data[i] := s.data[i];
      }
    }
    var i := 0;
    while i < t.len
      invariant 0 <= i <= t.len
      invariant data == s.data || fresh(data)
      invariant s.len + t.len <= data.Length
      invariant data[..s.len] == old(Content(s))
      invariant Content(s) == old(Content(s))
      invariant t.data[..] == old(t.data[..])
      invariant data[s.len..s.len + i] == old(t.data[..i])
      modifies data
    {
      data[s.len + i] := t.data[i];
      i := i + 1;
    }
    r := Slice(data, s.len + t.len);
    assert data[..s.len + t.len] == data[..s.len] + data[s.len..s.len + t.len];
  }

  /** The transaction text of a key and value. */
  function Encode(k: bytes, v: bytes): bytes {
    k + [EQUALS] + v
  }

  /** Builds the transaction text on top of the key's slice. The text shares the key's array exactly
      when the key was given enough spare capacity, and key and value keep their bytes either way. */
  method MakeTxKV(drawnKey: bytes, drawnValue: bytes, spareK: nat, spareV: nat, spareE: nat, spareT: nat)
    returns (k: Slice, v: Slice, tx: Slice)
    ensures ValidSlice(k) && ValidSlice(v) && ValidSlice(tx)
    ensures Content(k) == drawnKey && Content(v) == drawnValue
    ensures |Content(tx)| == |drawnKey| + 1 + |drawnValue|
    ensures Content(tx)[..|drawnKey|] == drawnKey && Content(tx)[|drawnKey| + 1..] == drawnValue
    ensures Content(tx)[|drawnKey|] as int == '=' as int
    ensures Content(tx) == Encode(drawnKey, drawnValue)
    ensures tx.data == k.data <==> spareK >= 1 + |drawnValue|
  {
    k := FromText(drawnKey, spareK);
    v := FromText(drawnValue, spareV);
    var eq := FromText([EQUALS], spareE);
    var tail := Append(eq, v, spareT);
    tx := Append(k, tail, spareT);
  }

  /** Key and value of a transaction text: split at the first '='. */
  function Split(tx: bytes): Option<(bytes, bytes)> {
    if tx == [] then None
    else if tx[0] == EQUALS then Some(([], tx[1..]))
    else match Split(tx[1..])
      case None => None
      case Some((k, v)) => Some(([tx[0]] + k, v))
  }

  /** Splitting the text of a key and value gives them back exactly when the key has no '='. */
  lemma {:induction false} SplitRecoversIff(k: bytes, v: bytes)
    ensures Split(Encode(k, v)) == Some((k, v)) <==> EQUALS !in k
    ensures Split(Encode(k, v)).Some?
  {
    if k == [] {
      assert Encode(k, v)[1..] == v;
    } else {
      assert Encode(k, v)[1..] == Encode(k[1..], v);
      SplitRecoversIff(k[1..], v);
      assert k == [k[0]] + k[1..];
    }
  }
}
