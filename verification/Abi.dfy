/**
 The contract ABI codec: src/contract/abi.h. A type list is laid out as a head,
 one word per static component and one offset word per dynamic one, followed by
 the tails of the dynamic components in order.
 */
module Abi {
  import opened Outcomes
  import opened Words
  import opened Int256
  import opened Spans

  datatype WordKind = KUint(width: nat) | KInt(width: nat) | KAddress | KBool | KHash

  // TBytes stands for Bytes and std::string, which share one encoding.
  datatype Ty = TWord(kind: WordKind) | TBytes | TVec(elem: Ty) | TTuple(comps: seq<Ty>)

  datatype Val = VInt(n: int) | VAddress(a: Address) | VBool(b: bool) | VHash(h: Hash)
               | VBytes(data: Bytes) | VList(vs: seq<Val>)

  // The pad counter of TypeEncoder<Bytes> is an int that grows in steps of 32.
  const MAX_DATA: int := 0x7fff_ffe0

  /* Types */

  predicate IsDynamic(t: Ty) {
    match t
    case TWord(_) => false
    case TBytes => true
    case TVec(_) => true
    case TTuple(ts) => AnyDynamic(ts)
  }

  predicate AnyDynamic(ts: seq<Ty>) {
    ts != [] && (IsDynamic(ts[0]) || AnyDynamic(ts[1..]))
  }

  // calculateOffsetForType: a static tuple counts one word per component.
  function OffsetFor(t: Ty): nat {
    if IsDynamic(t) then 32 else if t.TTuple? then 32 * |t.comps| else 32
  }

  function TotalOffset(ts: seq<Ty>): nat {
    if ts == [] then 0 else OffsetFor(ts[0]) + TotalOffset(ts[1..])
  }

  // The bytes a component really takes in the head.
  function HeadSize(t: Ty): nat {
    if IsDynamic(t) then 32 else if t.TTuple? then HeadSizes(t.comps) else 32
  }

  function HeadSizes(ts: seq<Ty>): nat {
    if ts == [] then 0 else HeadSize(ts[0]) + HeadSizes(ts[1..])
  }

  // The offsets of a component list start where its head ends.
  predicate Counted(ts: seq<Ty>) {
    AnyDynamic(ts) ==> TotalOffset(ts) == HeadSizes(ts)
  }

  predicate GoodType(t: Ty) {
    match t
    case TWord(k) => (k.KUint? || k.KInt?) ==> 1 <= k.width <= 32
    case TBytes => true
    case TVec(e) => GoodType(e)
    case TTuple(ts) => ts != [] && GoodTypes(ts) && Counted(ts)
  }

  predicate GoodTypes(ts: seq<Ty>) {
    ts == [] || (GoodType(ts[0]) && GoodTypes(ts[1..]))
  }

  // No static tuple holds another tuple.
  predicate FlatStatics(t: Ty) {
    match t
    case TVec(e) => FlatStatics(e)
    case TTuple(ts) => AllFlat(ts) && (!AnyDynamic(ts) ==> forall u <- ts :: !u.TTuple?)
    case _ => true
  }

  predicate AllFlat(ts: seq<Ty>) {
    ts == [] || (FlatStatics(ts[0]) && AllFlat(ts[1..]))
  }

  lemma {:induction false} FlatIsCounted(ts: seq<Ty>)
    requires AllFlat(ts)
    ensures TotalOffset(ts) == HeadSizes(ts)
  {
    if ts != [] {
      FlatIsCounted(ts[1..]);
      if ts[0].TTuple? && !IsDynamic(ts[0]) {
        WordsOnly(ts[0].comps);
      }
    }
  }

  lemma {:induction false} WordsOnly(ts: seq<Ty>)
    requires !AnyDynamic(ts) && forall u <- ts :: !u.TTuple?
    ensures HeadSizes(ts) == 32 * |ts|
  {
    if ts != [] {
      WordsOnly(ts[1..]);
    }
  }

  function Copies(e: Ty, n: nat): (ts: seq<Ty>)
    ensures |ts| == n
  {
    seq(n, _ => e)
  }

  lemma CopiesTail(e: Ty, n: nat)
    requires n > 0
    ensures Copies(e, n)[0] == e && Copies(e, n)[1..] == Copies(e, n - 1)
  {
  }

  lemma {:induction false} CopiesFacts(e: Ty, n: nat)
    ensures GoodType(e) ==> GoodTypes(Copies(e, n))
    ensures IsDynamic(e) ==> HeadSizes(Copies(e, n)) == 32 * n
    ensures AnyDynamic(Copies(e, n)) <==> n > 0 && IsDynamic(e)
  {
    if n > 0 {
      CopiesTail(e, n);
      CopiesFacts(e, n - 1);
    }
  }

  lemma {:induction false} HeadSizesLowerBound(ts: seq<Ty>)
    requires GoodTypes(ts)
    ensures HeadSizes(ts) >= 32 * |ts|
    decreases ts
  {
    if ts != [] {
      if ts[0].TTuple? {
        HeadSizesLowerBound(ts[0].comps);
      }
      HeadSizesLowerBound(ts[1..]);
    }
  }

  /* Values */

  predicate HasType(v: Val, t: Ty)
    decreases v, 1
  {
    match t
    case TWord(k) => HasKind(v, k)
    case TBytes => v.VBytes? && |v.data| <= MAX_DATA
    case TVec(e) => v.VList? && HasTypes(v.vs, Copies(e, |v.vs|))
    case TTuple(ts) => v.VList? && HasTypes(v.vs, ts)
  }

  predicate HasTypes(vs: seq<Val>, ts: seq<Ty>)
    decreases vs, 0
  {
    |vs| == |ts| && (vs == [] || (HasType(vs[0], ts[0]) && HasTypes(vs[1..], ts[1..])))
  }

  predicate HasKind(v: Val, k: WordKind) {
    match k
    case KUint(w) => v.VInt? && w <= 32 && 0 <= v.n < Pow256(w)
    case KInt(w) => v.VInt? && w <= 32 && InSigned(v.n, w)
    case KAddress => v.VAddress?
    case KBool => v.VBool?
    case KHash => v.VHash?
  }

  // The two's-complement range of w bytes.
  predicate InSigned(n: int, w: nat) {
    0 <= 2 * n + Pow256(w) < 2 * Pow256(w)
  }

  // Conversion to a narrower signed type: the built-in widths take two's-complement
  // ranges, the boost ones any magnitude that fits.
  predicate IntFits(w: nat, n: int) {
    if w in {1, 2, 4, 8} then InSigned(n, w) else 0 < n + Pow256(w) < 2 * Pow256(w)
  }

  lemma KindRange(n: int, w: nat)
    requires w <= 32 && InSigned(n, w)
    ensures INT_MIN <= n <= INT_MAX
  {
    WidthConstants();
    Pow256Monotone(w, 32);
  }

  function EncodeWord(v: Val, k: WordKind): (w: Bytes)
    requires HasKind(v, k)
    ensures |w| == 32
  {
    match k
    case KUint(_) => Fixed(v.n, 32)
    case KInt(w) => KindRange(v.n, w); IntWord(v.n)
    case KAddress => PadLeft(v.a, 32)
    case KBool => PadLeft([if v.b then 1 else 0], 32)
    case KHash => v.h
  }

  function DecodeWord(w: Bytes, k: WordKind): Outcome<Val>
    requires |w| == 32
  {
    match k
    case KUint(width) => if BE(w) < Pow256(width) then Ok(VInt(BE(w))) else Throws
    case KInt(width) => if IntFits(width, DecodeIntWord(w)) then Ok(VInt(DecodeIntWord(w))) else Throws
    case KAddress => Ok(VAddress(w[12..32]))
    case KBool => Ok(VBool(w[31] == 1))
    case KHash => Ok(VHash(w))
  }

  // The values the signed-word decoder gets right.
  predicate WordSurvives(v: Val, k: WordKind) {
    v.VInt? && k.KInt? ==> v.n >= 0 || v.n % 256 != 0
  }

  lemma WordRoundTrip(v: Val, k: WordKind)
    requires HasKind(v, k)
    ensures DecodeWord(EncodeWord(v, k), k) == Ok(v) <==> WordSurvives(v, k)
    ensures !DecodeWord(EncodeWord(v, k), k).Undefined?
  {
    match k
    case KUint(w) =>
      Pow256Monotone(w, 32);
      FixedValue(v.n, 32);
    case KInt(w) =>
      KindRange(v.n, w);
      IntWordRoundTrip(v.n);
    case KAddress =>
      assert PadLeft(v.a, 32)[12..32] == v.a;
    case KBool =>
      assert PadLeft([if v.b then 1 else 0], 32)[31] == if v.b then 1 else 0;
    case KHash =>
  }

  /* Encoder: specification */

  function Padded(data: Bytes): (r: Bytes)
    ensures |r| >= |data| && r[..|data|] == data
  {
    PadRight(data, if data == [] then 32 else (|data| + 31) / 32 * 32)
  }

  // TypeEncoder<T>::encode.
  function Enc(v: Val, t: Ty): Bytes
    requires HasType(v, t)
    decreases v, 1
  {
    match t
    case TWord(k) => EncodeWord(v, k)
    case TBytes => Fixed(|v.data|, 32) + Padded(v.data)
    case TVec(e) =>
      var ts := Copies(e, |v.vs|);
      Fixed(|v.vs|, 32) + (Heads(v.vs, ts, 32 * |v.vs|) + Tails(v.vs, ts))
    case TTuple(ts) => Heads(v.vs, ts, TotalOffset(ts)) + Tails(v.vs, ts)
  }

  function Heads(vs: seq<Val>, ts: seq<Ty>, next: nat): Bytes
    requires HasTypes(vs, ts)
    decreases vs, 0
  {
    if vs == [] then []
    else if IsDynamic(ts[0]) then Fixed(next, 32) + Heads(vs[1..], ts[1..], next + |Enc(vs[0], ts[0])|)
    else Enc(vs[0], ts[0]) + Heads(vs[1..], ts[1..], next)
  }

  function Tails(vs: seq<Val>, ts: seq<Ty>): Bytes
    requires HasTypes(vs, ts)
    decreases vs, 0
  {
    if vs == [] then []
    else (if IsDynamic(ts[0]) then Enc(vs[0], ts[0]) else []) + Tails(vs[1..], ts[1..])
  }

  // encodeData.
  function EncodeData(vs: seq<Val>, ts: seq<Ty>): Bytes
    requires HasTypes(vs, ts)
  {
    Heads(vs, ts, TotalOffset(ts)) + Tails(vs, ts)
  }

  lemma {:induction false} HeadsLength(vs: seq<Val>, ts: seq<Ty>, next: nat)
    requires HasTypes(vs, ts)
    ensures |Heads(vs, ts, next)| == HeadSizes(ts)
    decreases vs, 0
  {
    if vs != [] {
      HeadsLength(vs[1..], ts[1..], if IsDynamic(ts[0]) then next + |Enc(vs[0], ts[0])| else next);
      if !IsDynamic(ts[0]) {
        StaticLength(vs[0], ts[0]);
      }
    }
  }

  lemma {:induction false} NoTails(vs: seq<Val>, ts: seq<Ty>)
    requires HasTypes(vs, ts) && !AnyDynamic(ts)
    ensures Tails(vs, ts) == []
  {
    if vs != [] {
      NoTails(vs[1..], ts[1..]);
    }
  }

  lemma {:induction false} StaticLength(v: Val, t: Ty)
    requires HasType(v, t) && !IsDynamic(t)
    ensures |Enc(v, t)| == HeadSize(t)
    decreases v, 1
  {
    if t.TTuple? {
      NoTails(v.vs, t.comps);
      HeadsLength(v.vs, t.comps, TotalOffset(t.comps));
    }
  }

  /* Encoder: the methods of abi.h */

  method Encode(v: Val, t: Ty) returns (r: Bytes)
    requires HasType(v, t) && |Enc(v, t)| < U64
    ensures r == Enc(v, t)
    decreases v, 1
  {
    match t
    case TWord(k) =>
      r := EncodeWord(v, k);
    case TBytes =>
      r := EncodeBytes(v.data);
    case TVec(e) =>
      r := EncodeVector(v.vs, e);
    case TTuple(ts) =>
      var result, dynamicBytes := EncodeItems(v.vs, ts, TotalOffset(ts));
      r := result + dynamicBytes;
  }

  method EncodeLength(n: nat) returns (r: Bytes)
    requires n < U64
    ensures r == Fixed(n, 32)
  {
    var digits := UintToBytes(n);
    WidthConstants();
    Pow256Monotone(8, 32);
    PadLeftIsFixed(n, 32);
    r := PadLeft(digits, 32);
  }

  method EncodeBytes(data: Bytes) returns (r: Bytes)
    requires |data| <= MAX_DATA
    ensures r == Fixed(|data|, 32) + Padded(data)
  {
    var pad := 32;
    while pad < |data|
      invariant pad % 32 == 0 && 32 <= pad < 0x8000_0000
      invariant pad == 32 || pad < |data| + 32
      decreases |data| - pad
    {
      pad := pad + 32;
    }
    assert data != [] ==> pad == (|data| + 31) / 32 * 32;
    var len := EncodeLength(|data|);
    r := len + PadRight(data, pad);
  }

  // One round of the encoding loops.
  lemma EncodeStep(vs: seq<Val>, ts: seq<Ty>, i: nat, next: nat)
    requires i < |vs| == |ts| && HasTypes(vs[i..], ts[i..])
    ensures HasType(vs[i], ts[i]) && HasTypes(vs[i + 1..], ts[i + 1..])
    ensures var packed := Enc(vs[i], ts[i]); var vs', ts' := vs[i + 1..], ts[i + 1..];
      if IsDynamic(ts[i]) then
        && Heads(vs[i..], ts[i..], next) == Fixed(next, 32) + Heads(vs', ts', next + |packed|)
        && Tails(vs[i..], ts[i..]) == packed + Tails(vs', ts')
      else
        && Heads(vs[i..], ts[i..], next) == packed + Heads(vs', ts', next)
        && Tails(vs[i..], ts[i..]) == Tails(vs', ts')
  {
    assert vs[i..][1..] == vs[i + 1..] && ts[i..][1..] == ts[i + 1..];
  }

  // The loop has written the first i components.
  ghost predicate Written(vs: seq<Val>, ts: seq<Ty>, start: nat, i: nat, result: Bytes, dynamicBytes: Bytes, next: nat)
    requires i <= |vs| == |ts| && HasTypes(vs, ts)
  {
    && HasTypes(vs[i..], ts[i..])
    && Heads(vs, ts, start) == result + Heads(vs[i..], ts[i..], next)
    && Tails(vs, ts) == dynamicBytes + Tails(vs[i..], ts[i..])
  }

  lemma NothingWritten(vs: seq<Val>, ts: seq<Ty>, start: nat)
    requires HasTypes(vs, ts)
    ensures Written(vs, ts, start, 0, [], [], start)
  {
    assert vs[0..] == vs && ts[0..] == ts;
  }

  lemma NextWritten(vs: seq<Val>, ts: seq<Ty>, start: nat, i: nat, result: Bytes, dynamicBytes: Bytes, next: nat)
    requires i < |vs| == |ts| && HasTypes(vs, ts) && Written(vs, ts, start, i, result, dynamicBytes, next)
    ensures HasType(vs[i], ts[i])
    ensures var packed := Enc(vs[i], ts[i]);
      && |packed| <= |Heads(vs, ts, start)| + |Tails(vs, ts)|
      && (if IsDynamic(ts[i]) then
            Written(vs, ts, start, i + 1, result + Fixed(next, 32), dynamicBytes + packed, next + |packed|)
          else Written(vs, ts, start, i + 1, result + packed, dynamicBytes, next))
  {
    hide Fixed, Enc, Heads, Tails, HasType, HasTypes, IsDynamic;
    EncodeStep(vs, ts, i, next);
    var packed := Enc(vs[i], ts[i]);
    var vs', ts' := vs[i + 1..], ts[i + 1..];
    if IsDynamic(ts[i]) {
      var heads, tails := Heads(vs', ts', next + |packed|), Tails(vs', ts');
      assert result + (Fixed(next, 32) + heads) == result + Fixed(next, 32) + heads;
      assert dynamicBytes + (packed + tails) == dynamicBytes + packed + tails;
    } else {
      assert result + (packed + Heads(vs', ts', next)) == result + packed + Heads(vs', ts', next);
    }
  }

  lemma AllWritten(vs: seq<Val>, ts: seq<Ty>, start: nat, result: Bytes, dynamicBytes: Bytes, next: nat)
    requires HasTypes(vs, ts) && Written(vs, ts, start, |vs|, result, dynamicBytes, next)
    ensures result == Heads(vs, ts, start) && dynamicBytes == Tails(vs, ts)
  {
    assert vs[|vs|..] == [];
  }

  // The item loop of encodeData, of TypeEncoder<std::tuple> and, with equal types,
  // of TypeEncoder<std::vector>.
  method EncodeItems(vs: seq<Val>, ts: seq<Ty>, start: nat) returns (result: Bytes, dynamicBytes: Bytes)
    requires HasTypes(vs, ts) && |Heads(vs, ts, start)| + |Tails(vs, ts)| < U64
    ensures result == Heads(vs, ts, start) && dynamicBytes == Tails(vs, ts)
    decreases vs, 0
  {
    hide Fixed, Enc, EncodeWord, HasKind, HasType, Heads, Tails, Written, IsDynamic;
    result, dynamicBytes := [], [];
    var nextOffset: nat := start;
    NothingWritten(vs, ts, start);
    for i := 0 to |vs|
      invariant Written(vs, ts, start, i, result, dynamicBytes, nextOffset)
    {
      NextWritten(vs, ts, start, i, result, dynamicBytes, nextOffset);
      var packed := Encode(vs[i], ts[i]);
      if IsDynamic(ts[i]) {
        result := result + Fixed(nextOffset, 32);
        nextOffset := nextOffset + |packed|;
        dynamicBytes := dynamicBytes + packed;
      } else {
        result := result + packed;
      }
    }
    AllWritten(vs, ts, start, result, dynamicBytes, nextOffset);
  }

  method EncodeVector(vs: seq<Val>, e: Ty) returns (result: Bytes)
    requires HasType(VList(vs), TVec(e)) && |Enc(VList(vs), TVec(e))| < U64
    ensures result == Enc(VList(vs), TVec(e))
    decreases vs, 1
  {
    var offsets, data := EncodeItems(vs, Copies(e, |vs|), 32 * |vs|);
    result := Fixed(|vs|, 32) + (offsets + data);
  }

  /* Decoder: specification */

  // fromBigEndian<uint64_t> of the word at index i.
  function Word64(bytes: Bytes, i: nat): nat
    requires i + 32 <= |bytes|
  {
    BE(bytes[i..i + 32]) % U64
  }

  // The start and length of a dynamic item referred to from the word at index:
  // every sum is taken in uint64_t, and a sum that wraps passes the size check.
  function Locate(bytes: Bytes, index: nat): Outcome<(nat, nat)> {
    if index + 32 > |bytes| then Throws
    else
      var start := Word64(bytes, index);
      if (start + 32) % U64 > |bytes| then Throws
      else if start + 32 > |bytes| then Undefined
      else Ok((start + 32, Word64(bytes, start)))
  }

  // TypeDecoder<T>::decode: the value and the advanced index.
  function Dec(bytes: Bytes, index: nat, t: Ty): Outcome<(Val, nat)>
    decreases t, 0
  {
    match t
    case TWord(k) =>
      if index + 32 > |bytes| then Throws
      else
        var v :- DecodeWord(bytes[index..index + 32], k);
        Ok((v, index + 32))
    case TBytes =>
      var (start, len) :- Locate(bytes, index);
      if (start + len) % U64 > |bytes| then Throws
      else if start + len > |bytes| then Undefined
      else Ok((VBytes(bytes[start..start + len]), index + 32))
    case TVec(e) =>
      var (start, len) :- Locate(bytes, index);
      var (vs, _) :- DecVec(bytes[start..], 0, e, len);
      Ok((VList(vs), index + 32))
    case TTuple(ts) =>
      if AnyDynamic(ts) then
        if index + 32 > |bytes| then Throws
        else if Word64(bytes, index) > |bytes| then Undefined
        else
          var (vs, _) :- DecSeq(bytes[Word64(bytes, index)..], 0, ts);
          Ok((VList(vs), index + 32))
      else if index + 32 * |ts| > |bytes| then Throws
      else
        var (vs, i) :- DecSeq(bytes, index, ts);
        Ok((VList(vs), i))
  }

  // decodeTuple and decodeTupleHelper.
  function DecSeq(bytes: Bytes, index: nat, ts: seq<Ty>): Outcome<(seq<Val>, nat)>
    decreases ts, 0
  {
    if ts == [] then Ok(([], index))
    else
      var (v, i) :- Dec(bytes, index, ts[0]);
      var (vs, j) :- DecSeq(bytes, i, ts[1..]);
      Ok(([v] + vs, j))
  }

  function DecVec(bytes: Bytes, index: nat, e: Ty, n: nat): Outcome<(seq<Val>, nat)>
    decreases e, n + 1
  {
    if n == 0 then Ok(([], index))
    else
      var (v, i) :- Dec(bytes, index, e);
      var (vs, j) :- DecVec(bytes, i, e, n - 1);
      Ok(([v] + vs, j))
  }

  // decodeData.
  function DecodeData(bytes: Bytes, ts: seq<Ty>): Outcome<seq<Val>> {
    var (vs, _) :- DecSeq(bytes, 0, ts);
    Ok(vs)
  }

  lemma {:induction false} DecVecIsDecSeq(bytes: Bytes, index: nat, e: Ty, n: nat)
    ensures DecVec(bytes, index, e, n) == DecSeq(bytes, index, Copies(e, n))
    decreases n
  {
    if n > 0 {
      CopiesTail(e, n);
      var r := Dec(bytes, index, e);
      if r.Ok? {
        DecVecIsDecSeq(bytes, r.value.1, e, n - 1);
      }
    }
  }

  /* Decoder: the methods of abi.h */

  method Decode(bytes: Bytes, index: nat, t: Ty) returns (r: Outcome<(Val, nat)>)
    ensures r == Dec(bytes, index, t)
    decreases t, 0
  {
    match t
    case TWord(k) =>
      if index + 32 > |bytes| {
        return Throws;
      }
      var v :- DecodeWord(bytes[index..index + 32], k);
      return Ok((v, index + 32));
    case TBytes =>
      var found :- Locate(bytes, index);
      var (start, len) := found;
      if (start + len) % U64 > |bytes| {
        return Throws;
      } else if start + len > |bytes| {
        return Undefined;
      }
      return Ok((VBytes(bytes[start..start + len]), index + 32));
    case TVec(e) =>
      var found :- Locate(bytes, index);
      var (start, len) := found;
      var elems :- DecodeElements(bytes[start..], e, len);
      return Ok((VList(elems), index + 32));
    case TTuple(ts) =>
      if AnyDynamic(ts) {
        if index + 32 > |bytes| {
          return Throws;
        }
        var offset := FromBigEndian64(bytes[index..index + 32]);
        if offset > |bytes| {
          return Undefined;
        }
        var r :- DecodeTuple(bytes[offset..], 0, ts);
        return Ok((VList(r.0), index + 32));
      }
      if index + 32 * |ts| > |bytes| {
        return Throws;
      }
      var r :- DecodeTuple(bytes, index, ts);
      return Ok((VList(r.0), r.1));
  }

  method DecodeTuple(bytes: Bytes, index: nat, ts: seq<Ty>) returns (r: Outcome<(seq<Val>, nat)>)
    ensures r == DecSeq(bytes, index, ts)
    decreases ts, 0
  {
    if ts == [] {
      return Ok(([], index));
    }
    var first :- Decode(bytes, index, ts[0]);
    var rest :- DecodeTuple(bytes, first.1, ts[1..]);
    return Ok(([first.0] + rest.0, rest.1));
  }

  function Prepend(vs: seq<Val>, r: Outcome<(seq<Val>, nat)>): Outcome<(seq<Val>, nat)> {
    var (ws, i) :- r;
    Ok((vs + ws, i))
  }

  lemma PrependNothing(r: Outcome<(seq<Val>, nat)>)
    ensures Prepend([], r) == r
  {
    if r.Ok? {
      assert [] + r.value.0 == r.value.0;
    }
  }

  lemma PrependStep(vs: seq<Val>, v: Val, r: Outcome<(seq<Val>, nat)>)
    ensures Prepend(vs, Prepend([v], r)) == Prepend(vs + [v], r)
  {
    if r.Ok? {
      assert vs + ([v] + r.value.0) == vs + [v] + r.value.0;
    }
  }

  // The element loop of TypeDecoder<std::vector>.
  method DecodeElements(view: Bytes, e: Ty, arrayLength: nat) returns (r: Outcome<seq<Val>>)
    ensures var whole := DecVec(view, 0, e, arrayLength);
      r == if whole.Ok? then Ok(whole.value.0) else whole.PropagateFailure()
    decreases e, 1
  {
    var retVector: seq<Val> := [];
    var newIndex := 0;
    ghost var whole := DecVec(view, 0, e, arrayLength);
    PrependNothing(whole);
    for i := 0 to arrayLength
      invariant |retVector| == i
      invariant whole == Prepend(retVector, DecVec(view, newIndex, e, arrayLength - i))
    {
      var item :- Decode(view, newIndex, e);
      PrependStep(retVector, item.0, DecVec(view, item.1, e, arrayLength - i - 1));
      retVector := retVector + [item.0];
      newIndex := item.1;
    }
    assert retVector + [] == retVector;
    return Ok(retVector);
  }

  /* Round trip */

  // What a value becomes on its way through the codec: itself, up to signed words.
  function Through(v: Val, t: Ty): Outcome<Val>
    requires HasType(v, t)
    decreases v, 1
  {
    match t
    case TWord(k) => DecodeWord(EncodeWord(v, k), k)
    case TBytes => Ok(v)
    case TVec(e) =>
      var vs :- ThroughAll(v.vs, Copies(e, |v.vs|));
      Ok(VList(vs))
    case TTuple(ts) =>
      var vs :- ThroughAll(v.vs, ts);
      Ok(VList(vs))
  }

  function ThroughAll(vs: seq<Val>, ts: seq<Ty>): Outcome<seq<Val>>
    requires HasTypes(vs, ts)
    decreases vs, 0
  {
    if vs == [] then Ok([])
    else
      var v :- Through(vs[0], ts[0]);
      var vs' :- ThroughAll(vs[1..], ts[1..]);
      Ok([v] + vs')
  }

  // Every signed word is non-negative or has a non-zero last byte.
  predicate Survives(v: Val, t: Ty)
    requires HasType(v, t)
    decreases v, 1
  {
    match t
    case TWord(k) => WordSurvives(v, k)
    case TBytes => true
    case TVec(e) => AllSurvive(v.vs, Copies(e, |v.vs|))
    case TTuple(ts) => AllSurvive(v.vs, ts)
  }

  predicate AllSurvive(vs: seq<Val>, ts: seq<Ty>)
    requires HasTypes(vs, ts)
    decreases vs, 0
  {
    vs == [] || (Survives(vs[0], ts[0]) && AllSurvive(vs[1..], ts[1..]))
  }

  lemma {:induction false} ThroughIsIdentity(v: Val, t: Ty)
    requires HasType(v, t)
    ensures Through(v, t) == Ok(v) <==> Survives(v, t)
    ensures !Through(v, t).Undefined?
    decreases v, 1
  {
    match t
    case TWord(k) => WordRoundTrip(v, k);
    case TBytes =>
    case TVec(e) => ThroughAllIsIdentity(v.vs, Copies(e, |v.vs|));
    case TTuple(ts) => ThroughAllIsIdentity(v.vs, ts);
  }

  lemma {:induction false} ThroughAllIsIdentity(vs: seq<Val>, ts: seq<Ty>)
    requires HasTypes(vs, ts)
    ensures ThroughAll(vs, ts) == Ok(vs) <==> AllSurvive(vs, ts)
    ensures !ThroughAll(vs, ts).Undefined?
    decreases vs, 0
  {
    if vs != [] {
      ThroughIsIdentity(vs[0], ts[0]);
      ThroughAllIsIdentity(vs[1..], ts[1..]);
      var v, rest := Through(vs[0], ts[0]), ThroughAll(vs[1..], ts[1..]);
      if v.Ok? && rest.Ok? {
        assert ([v.value] + rest.value)[0] == v.value && ([v.value] + rest.value)[1..] == rest.value;
      }
      assert vs == [vs[0]] + vs[1..];
    }
  }

  lemma WordAt(bytes: Bytes, i: nat, n: nat)
    requires At(bytes, i, Fixed(n, 32)) && n < U64
    ensures Word64(bytes, i) == n
  {
    WidthConstants();
    FixedValue(n, 32);
  }

  // Where the decoder must find an encoded component: in place if static, behind
  // the offset word at index if dynamic.
  predicate Placed(bytes: Bytes, index: nat, v: Val, t: Ty, tail: nat)
    requires HasType(v, t)
  {
    if IsDynamic(t) then tail < U64 && At(bytes, index, Fixed(tail, 32)) && At(bytes, tail, Enc(v, t))
    else At(bytes, index, Enc(v, t))
  }

  function Moved(r: Outcome<Val>, index: nat): Outcome<(Val, nat)> {
    var v :- r;
    Ok((v, index))
  }

  function MovedAll(r: Outcome<seq<Val>>, index: nat): Outcome<(seq<Val>, nat)> {
    var vs :- r;
    Ok((vs, index))
  }

  lemma {:induction false} DecodesPlaced(bytes: Bytes, index: nat, v: Val, t: Ty, tail: nat)
    requires HasType(v, t) && GoodType(t) && |bytes| < U64
    requires Placed(bytes, index, v, t, tail)
    ensures Dec(bytes, index, t) == Moved(Through(v, t), index + HeadSize(t))
    decreases v, 1
  {
    hide Fixed, BE, Dec;
    match t
    case TWord(k) => DecodesWord(bytes, index, v, k);
    case TBytes => DecodesBytes(bytes, index, v.data, tail);
    case TVec(e) => DecodesVector(bytes, index, v.vs, e, tail);
    case TTuple(ts) =>
      if AnyDynamic(ts) {
        DecodesDynamicTuple(bytes, index, v.vs, ts, tail);
      } else {
        DecodesStaticTuple(bytes, index, v.vs, ts);
      }
  }

  lemma DecodesWord(bytes: Bytes, index: nat, v: Val, k: WordKind)
    requires HasKind(v, k) && At(bytes, index, EncodeWord(v, k))
    ensures Dec(bytes, index, TWord(k)) == Moved(Through(v, TWord(k)), index + 32)
  {
    hide Fixed, BE, EncodeWord;
  }

  lemma LocatesPlaced(bytes: Bytes, index: nat, tail: nat, n: nat, rest: Bytes)
    requires |bytes| < U64 && tail < U64 && n < U64
    requires At(bytes, index, Fixed(tail, 32)) && At(bytes, tail, Fixed(n, 32) + rest)
    ensures Locate(bytes, index) == Ok((tail + 32, n))
    ensures At(bytes, tail + 32, rest)
  {
    hide Fixed, BE;
    AtSplit(bytes, tail, Fixed(n, 32), rest);
    WordAt(bytes, index, tail);
    WordAt(bytes, tail, n);
  }

  lemma DecodesBytes(bytes: Bytes, index: nat, data: Bytes, tail: nat)
    requires |bytes| < U64 && tail < U64 && At(bytes, index, Fixed(tail, 32))
    requires At(bytes, tail, Fixed(|data|, 32) + Padded(data))
    ensures Dec(bytes, index, TBytes) == Ok((VBytes(data), index + 32))
  {
    hide Fixed, BE, Padded, Dec, Locate;
    var padded, start := Padded(data), tail + 32;
    LocatesPlaced(bytes, index, tail, |data|, padded);
    PrefixAt(bytes, start, padded, data);
    DecOfBytes(bytes, index, start, |data|);
  }

  lemma DecOfBytes(bytes: Bytes, index: nat, start: nat, n: nat)
    requires Locate(bytes, index) == Ok((start, n)) && start + n <= |bytes| < U64
    ensures Dec(bytes, index, TBytes) == Ok((VBytes(bytes[start..start + n]), index + 32))
  {
    hide BE, Locate;
    assert (start + n) % U64 == start + n;
  }

  lemma {:induction false} DecodesStaticTuple(bytes: Bytes, index: nat, vs: seq<Val>, ts: seq<Ty>)
    requires HasTypes(vs, ts) && GoodType(TTuple(ts)) && |bytes| < U64
    requires !AnyDynamic(ts) && At(bytes, index, Enc(VList(vs), TTuple(ts)))
    ensures Dec(bytes, index, TTuple(ts)) == Moved(Through(VList(vs), TTuple(ts)), index + HeadSizes(ts))
    decreases vs, 1
  {
    NoTails(vs, ts);
    HeadsLength(vs, ts, TotalOffset(ts));
    HeadSizesLowerBound(ts);
    assert Enc(VList(vs), TTuple(ts)) == Heads(vs, ts, TotalOffset(ts));
    DecodesAll(bytes, index, vs, ts, TotalOffset(ts));
  }

  // A list encoded from its own origin, heads first.
  lemma {:induction false} DecodesList(bytes: Bytes, origin: nat, vs: seq<Val>, ts: seq<Ty>, next: nat)
    requires HasTypes(vs, ts) && GoodTypes(ts) && |bytes| < U64
    requires AnyDynamic(ts) ==> next == HeadSizes(ts)
    requires At(bytes, origin, Heads(vs, ts, next) + Tails(vs, ts))
    ensures DecSeq(bytes[origin..], 0, ts) == MovedAll(ThroughAll(vs, ts), HeadSizes(ts))
    decreases vs, 1
  {
    hide Fixed, BE, DecSeq;
    var heads, tails := Heads(vs, ts, next), Tails(vs, ts);
    HeadsLength(vs, ts, next);
    AtSplit(bytes, origin, heads, tails);
    AtShift(bytes, origin, 0, heads);
    AtShift(bytes, origin, |heads|, tails);
    DecodesAll(bytes[origin..], 0, vs, ts, next);
  }

  lemma {:induction false} DecodesDynamicTuple(bytes: Bytes, index: nat, vs: seq<Val>, ts: seq<Ty>, tail: nat)
    requires HasTypes(vs, ts) && GoodType(TTuple(ts)) && |bytes| < U64
    requires AnyDynamic(ts) && Placed(bytes, index, VList(vs), TTuple(ts), tail)
    ensures Dec(bytes, index, TTuple(ts)) == Moved(Through(VList(vs), TTuple(ts)), index + 32)
    decreases vs, 2
  {
    hide Fixed, BE, DecSeq, GoodTypes;
    WordAt(bytes, index, tail);
    DecodesList(bytes, tail, vs, ts, TotalOffset(ts));
  }

  lemma {:induction false} DecodesVector(bytes: Bytes, index: nat, vs: seq<Val>, e: Ty, tail: nat)
    requires HasTypes(vs, Copies(e, |vs|)) && GoodType(e) && |bytes| < U64
    requires tail < U64 && At(bytes, index, Fixed(tail, 32))
    requires At(bytes, tail, Fixed(|vs|, 32) + (Heads(vs, Copies(e, |vs|), 32 * |vs|) + Tails(vs, Copies(e, |vs|))))
    ensures Dec(bytes, index, TVec(e)) == Moved(Through(VList(vs), TVec(e)), index + 32)
    decreases vs, 2
  {
    hide Fixed, BE, Dec, DecVec, Locate;
    var n, ts := |vs|, Copies(e, |vs|);
    var body := Heads(vs, ts, 32 * n) + Tails(vs, ts);
    VectorFits(vs, e);
    LocatesPlaced(bytes, index, tail, n, body);
    DecodesList(bytes, tail + 32, vs, ts, 32 * n);
    DecVecIsDecSeq(bytes[tail + 32..], 0, e, n);
    DecOfVector(bytes, index, e, tail + 32, n);
  }

  lemma VectorFits(vs: seq<Val>, e: Ty)
    requires HasTypes(vs, Copies(e, |vs|)) && GoodType(e)
    ensures var ts := Copies(e, |vs|);
      && GoodTypes(ts) && |Heads(vs, ts, 32 * |vs|)| >= 32 * |vs|
      && (AnyDynamic(ts) ==> 32 * |vs| == HeadSizes(ts))
  {
    CopiesFacts(e, |vs|);
    HeadSizesLowerBound(Copies(e, |vs|));
    HeadsLength(vs, Copies(e, |vs|), 32 * |vs|);
  }

  lemma DecOfVector(bytes: Bytes, index: nat, e: Ty, start: nat, n: nat)
    requires Locate(bytes, index) == Ok((start, n)) && start <= |bytes|
    ensures var elems := DecVec(bytes[start..], 0, e, n);
      Dec(bytes, index, TVec(e)) ==
      if elems.Ok? then Ok((VList(elems.value.0), index + 32)) else elems.PropagateFailure()
  {
    hide Fixed, BE;
  }

  // Offset at which the tails of the later components start.
  function NextOffset(v: Val, t: Ty, next: nat): nat
    requires HasType(v, t)
  {
    if IsDynamic(t) then next + |Enc(v, t)| else next
  }

  lemma FirstPlaced(bytes: Bytes, index: nat, vs: seq<Val>, ts: seq<Ty>, next: nat)
    requires HasTypes(vs, ts) && vs != [] && |bytes| < U64
    requires At(bytes, index, Heads(vs, ts, next))
    requires AnyDynamic(ts) ==> At(bytes, next, Tails(vs, ts))
    ensures Placed(bytes, index, vs[0], ts[0], next)
    ensures var next' := NextOffset(vs[0], ts[0], next);
      && At(bytes, index + HeadSize(ts[0]), Heads(vs[1..], ts[1..], next'))
      && (AnyDynamic(ts[1..]) ==> At(bytes, next', Tails(vs[1..], ts[1..])))
  {
    hide Fixed, BE, EncodeWord, Padded;
    var head := FirstHead(vs, ts, next);
    var next' := NextOffset(vs[0], ts[0], next);
    AtSplit(bytes, index, head, Heads(vs[1..], ts[1..], next'));
    var tail := if IsDynamic(ts[0]) then Enc(vs[0], ts[0]) else [];
    assert Tails(vs, ts) == tail + Tails(vs[1..], ts[1..]);
    AtSplit(bytes, next, tail, Tails(vs[1..], ts[1..]));
  }

  lemma {:induction false} DecodesAll(bytes: Bytes, index: nat, vs: seq<Val>, ts: seq<Ty>, next: nat)
    requires HasTypes(vs, ts) && GoodTypes(ts) && |bytes| < U64
    requires At(bytes, index, Heads(vs, ts, next))
    requires AnyDynamic(ts) ==> At(bytes, next, Tails(vs, ts))
    ensures DecSeq(bytes, index, ts) == MovedAll(ThroughAll(vs, ts), index + HeadSizes(ts))
    decreases vs, 0
  {
    hide Enc, EncodeWord, Fixed, BE, GoodType, At, Tails, HasKind;
    if vs != [] {
      FirstPlaced(bytes, index, vs, ts, next);
      DecodesPlaced(bytes, index, vs[0], ts[0], next);
      DecodesAll(bytes, index + HeadSize(ts[0]), vs[1..], ts[1..], NextOffset(vs[0], ts[0], next));
    }
  }

  // decodeData undoes encodeData, whatever follows the encoding, on every value
  // list whose signed words survive, and on no other.
  lemma AbiRoundTrip(vs: seq<Val>, ts: seq<Ty>, rest: Bytes)
    requires ts != [] && HasTypes(vs, ts) && GoodTypes(ts) && Counted(ts)
    requires |EncodeData(vs, ts) + rest| < U64
    ensures DecodeData(EncodeData(vs, ts) + rest, ts) == ThroughAll(vs, ts)
    ensures DecodeData(EncodeData(vs, ts) + rest, ts) == Ok(vs) <==> AllSurvive(vs, ts)
  {
    var bytes := EncodeData(vs, ts) + rest;
    assert bytes[0..] == bytes;
    DecodesList(bytes, 0, vs, ts, TotalOffset(ts));
    ThroughAllIsIdentity(vs, ts);
  }

  // The same for the types without nested static tuples.
  lemma FlatTypesRoundTrip(vs: seq<Val>, ts: seq<Ty>, rest: Bytes)
    requires ts != [] && HasTypes(vs, ts) && AllPlain(ts) && AllFlat(ts)
    requires |EncodeData(vs, ts) + rest| < U64
    ensures DecodeData(EncodeData(vs, ts) + rest, ts) == Ok(vs) <==> AllSurvive(vs, ts)
  {
    FlatIsGood(ts);
    FlatIsCounted(ts);
    AbiRoundTrip(vs, ts, rest);
  }

  // Word widths are real and no tuple is empty.
  predicate Plain(t: Ty) {
    match t
    case TWord(k) => (k.KUint? || k.KInt?) ==> 1 <= k.width <= 32
    case TBytes => true
    case TVec(e) => Plain(e)
    case TTuple(ts) => ts != [] && AllPlain(ts)
  }

  predicate AllPlain(ts: seq<Ty>) {
    ts == [] || (Plain(ts[0]) && AllPlain(ts[1..]))
  }

  lemma {:induction false} FlatIsGood(ts: seq<Ty>)
    requires AllPlain(ts) && AllFlat(ts)
    ensures GoodTypes(ts)
    decreases ts, 0
  {
    if ts != [] {
      FlatIsGoodType(ts[0]);
      FlatIsGood(ts[1..]);
    }
  }

  lemma {:induction false} FlatIsGoodType(t: Ty)
    requires Plain(t) && FlatStatics(t)
    ensures GoodType(t)
    decreases t, 0
  {
    match t
    case TVec(e) => FlatIsGoodType(e);
    case TTuple(ts) =>
      FlatIsGood(ts);
      FlatIsCounted(ts);
    case _ =>
  }

  // Bytes of the heads and of the tails of the components before component i.
  function HeadsBefore(ts: seq<Ty>, i: nat): nat
    requires i <= |ts|
  {
    if i == 0 then 0 else HeadSize(ts[0]) + HeadsBefore(ts[1..], i - 1)
  }

  function TailsBefore(vs: seq<Val>, ts: seq<Ty>, i: nat): nat
    requires HasTypes(vs, ts) && i <= |ts|
    decreases i
  {
    if i == 0 then 0
    else (if IsDynamic(ts[0]) then |Enc(vs[0], ts[0])| else 0) + TailsBefore(vs[1..], ts[1..], i - 1)
  }

  // Layout of an encoded list: the head of dynamic component i stands behind the
  // heads before it and holds the offset, and its tail stands right behind the tails
  // before it.
  lemma OffsetsPointAtTails(vs: seq<Val>, ts: seq<Ty>, next: nat, i: nat)
    requires HasTypes(vs, ts) && i < |ts| && IsDynamic(ts[i]) && HasType(vs[i], ts[i])
    ensures var before := TailsBefore(vs, ts, i);
      var encoding := Heads(vs, ts, next) + Tails(vs, ts);
      && At(encoding, HeadsBefore(ts, i), Fixed(next + before, 32))
      && At(encoding, HeadSizes(ts) + before, Enc(vs[i], ts[i]))
  {
    hide Fixed, Enc, EncodeWord;
    HeadsLength(vs, ts, next);
    HeadAt(vs, ts, next, i, next + TailsBefore(vs, ts, i));
    TailAt(vs, ts, i);
    var heads, tails := Heads(vs, ts, next), Tails(vs, ts);
    var h, before := HeadsBefore(ts, i), TailsBefore(vs, ts, i);
    assert (heads + tails)[h..h + 32] == heads[h..h + 32];
    AtBehind(heads, tails, before, Enc(vs[i], ts[i]));
  }

  lemma FirstHead(vs: seq<Val>, ts: seq<Ty>, next: nat) returns (head: Bytes)
    requires HasTypes(vs, ts) && ts != []
    ensures |head| == HeadSize(ts[0])
    ensures head == if IsDynamic(ts[0]) then Fixed(next, 32) else Enc(vs[0], ts[0])
    ensures Heads(vs, ts, next) == head + Heads(vs[1..], ts[1..], NextOffset(vs[0], ts[0], next))
  {
    head := if IsDynamic(ts[0]) then Fixed(next, 32) else Enc(vs[0], ts[0]);
    if !IsDynamic(ts[0]) {
      StaticLength(vs[0], ts[0]);
    }
  }

  lemma {:induction false} HeadAt(vs: seq<Val>, ts: seq<Ty>, next: nat, i: nat, w: nat)
    requires HasTypes(vs, ts) && i < |ts| && IsDynamic(ts[i])
    requires w == next + TailsBefore(vs, ts, i)
    ensures At(Heads(vs, ts, next), HeadsBefore(ts, i), Fixed(w, 32))
    decreases i
  {
    hide Fixed, Enc, EncodeWord, Heads;
    var head := FirstHead(vs, ts, next);
    var next' := NextOffset(vs[0], ts[0], next);
    var rest := Heads(vs[1..], ts[1..], next');
    if i == 0 {
      AtFront(head, rest);
    } else {
      HeadAt(vs[1..], ts[1..], next', i - 1, w);
      AtBehind(head, rest, HeadsBefore(ts[1..], i - 1), Fixed(w, 32));
    }
  }

  lemma {:induction false} TailAt(vs: seq<Val>, ts: seq<Ty>, i: nat)
    requires HasTypes(vs, ts) && i < |ts| && IsDynamic(ts[i]) && HasType(vs[i], ts[i])
    ensures At(Tails(vs, ts), TailsBefore(vs, ts, i), Enc(vs[i], ts[i]))
    decreases i
  {
    var vs', ts' := vs[1..], ts[1..];
    var front := if IsDynamic(ts[0]) then Enc(vs[0], ts[0]) else [];
    assert Tails(vs, ts) == front + Tails(vs', ts');
    if i == 0 {
      AtFront(front, Tails(vs', ts'));
    } else {
      TailAt(vs', ts', i - 1);
      AtBehind(front, Tails(vs', ts'), TailsBefore(vs', ts', i - 1), Enc(vs[i], ts[i]));
    }
  }

  // A static tuple inside a static tuple is undercounted: the offset word of the
  // bytes then points at itself, and decoding throws.
  const WORD: Ty := TWord(KUint(32))
  const PAIR: Ty := TTuple([WORD, WORD])
  const NESTED: Ty := TTuple([WORD, PAIR])

  lemma OneMoreType(t: Ty, ts: seq<Ty>)
    ensures AnyDynamic([t] + ts) <==> IsDynamic(t) || AnyDynamic(ts)
    ensures GoodTypes([t] + ts) <==> GoodType(t) && GoodTypes(ts)
    ensures HeadSizes([t] + ts) == HeadSize(t) + HeadSizes(ts)
    ensures TotalOffset([t] + ts) == OffsetFor(t) + TotalOffset(ts)
  {
    assert ([t] + ts)[1..] == ts;
  }

  lemma TwoComponents(t: Ty, u: Ty)
    ensures AnyDynamic([t, u]) <==> IsDynamic(t) || IsDynamic(u)
    ensures GoodTypes([t, u]) <==> GoodType(t) && GoodType(u)
    ensures HeadSizes([t, u]) == HeadSize(t) + HeadSize(u)
    ensures TotalOffset([t, u]) == OffsetFor(t) + OffsetFor(u)
  {
    OneMoreType(u, []);
    OneMoreType(t, [u]);
    assert [u] + [] == [u] && [t] + [u] == [t, u];
  }

  lemma OneMoreValue(v: Val, t: Ty, vs: seq<Val>, ts: seq<Ty>)
    ensures HasTypes([v] + vs, [t] + ts) <==> HasType(v, t) && HasTypes(vs, ts)
  {
    assert ([v] + vs)[1..] == vs && ([t] + ts)[1..] == ts;
  }

  lemma TwoValues(v: Val, t: Ty, w: Val, u: Ty)
    ensures HasTypes([v, w], [t, u]) <==> HasType(v, t) && HasType(w, u)
  {
    OneMoreValue(w, u, [], []);
    OneMoreValue(v, t, [w], [u]);
    assert [w] + [] == [w] && [u] + [] == [u] && [v] + [w] == [v, w] && [t] + [u] == [t, u];
  }

  lemma NestedFacts(x: Val)
    requires HasType(x, WORD)
    ensures HasType(VList([x, VList([x, x])]), NESTED)
    ensures GoodType(NESTED) && HeadSize(NESTED) == 96 && OffsetFor(NESTED) == 64
    ensures !IsDynamic(NESTED)
  {
    TwoComponents(WORD, WORD);
    TwoComponents(WORD, PAIR);
    TwoValues(x, WORD, x, WORD);
    TwoValues(x, WORD, VList([x, x]), PAIR);
  }

  lemma NestedStaticTupleFails(x: Val)
    requires HasType(x, WORD)
    ensures var ts, vs := [NESTED, TBytes], [VList([x, VList([x, x])]), VBytes([])];
      && HasTypes(vs, ts) && !Counted(ts)
      && DecodeData(EncodeData(vs, ts), ts) == Throws
  {
    NestedFacts(x);
    var v, empty := VList([x, VList([x, x])]), VBytes([]);
    var ts, vs := [NESTED, TBytes], [v, empty];
    TwoComponents(NESTED, TBytes);
    TwoValues(v, NESTED, empty, TBytes);
    var bytes, word := EncodeData(vs, ts), Fixed(96, 32);
    StaticLength(v, NESTED);
    UncountedLayout(v, empty, word);
    AtFront(Enc(v, NESTED), word + Tails(vs, ts));
    DecodesPlaced(bytes, 0, v, NESTED, 0);
    WordAt(bytes, 96, 96);
    assert Locate(bytes, 96) == Ok((128, 96));
    assert Dec(bytes, 96, TBytes) == Throws;
    assert ts[1..] == [TBytes];
    assert DecSeq(bytes, 96, [TBytes]) == Throws;
    ThroughIsIdentity(v, NESTED);
  }

  lemma UncountedLayout(v: Val, empty: Val, word: Bytes)
    requires HasTypes([v, empty], [NESTED, TBytes]) && HasType(v, NESTED) && empty == VBytes([])
    requires TotalOffset([NESTED, TBytes]) == 96 && !IsDynamic(NESTED) && |Enc(v, NESTED)| == 96
    requires word == Fixed(96, 32)
    ensures var ts, vs := [NESTED, TBytes], [v, empty];
      && EncodeData(vs, ts) == Enc(v, NESTED) + (word + Tails(vs, ts))
      && At(EncodeData(vs, ts), 96, word) && |EncodeData(vs, ts)| == 192
  {
    hide Fixed, GoodType;
    var ts, vs := [NESTED, TBytes], [v, empty];
    assert ts[1..] == [TBytes] && vs[1..] == [empty];
    assert ts[1..][1..] == [] && vs[1..][1..] == [];
    assert Heads([empty], [TBytes], 96) == word;
    assert Heads(vs, ts, 96) == Enc(v, NESTED) + word;
    assert |Enc(empty, TBytes)| == 64;
    assert Tails([empty], [TBytes]) == Enc(empty, TBytes);
    assert Tails(vs, ts) == Enc(empty, TBytes);
  }
}
