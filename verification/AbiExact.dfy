/**
 Which type lists the codec of src/contract/abi.h brings back. calculateOffsetForType
 gives a static tuple one word per component; where a list is miscounted that way,
 its offset words point into its own head.
 */
module AbiExact {
  import opened Outcomes
  import opened Words
  import opened Int256
  import opened Spans
  import opened Abi

  // Every value list of these types whose signed words survive comes back.
  ghost predicate RoundTrips(ts: seq<Ty>) {
    forall vs | HasTypes(vs, ts) && AllSurvive(vs, ts) && |EncodeData(vs, ts)| < U64 ::
      DecodeData(EncodeData(vs, ts), ts) == Ok(vs)
  }

  /* Where a miscounted offset leads */

  // The head of a list holds an offset word at position p.
  predicate OffsetAt(ts: seq<Ty>, p: nat) {
    ts != []
    && if p < HeadSize(ts[0]) then IsDynamic(ts[0]) else OffsetAt(ts[1..], p - HeadSize(ts[0]))
  }

  function FirstDynamic(ts: seq<Ty>): Ty
    requires AnyDynamic(ts)
  {
    if IsDynamic(ts[0]) then ts[0] else FirstDynamic(ts[1..])
  }

  // The encoding starts with a length or with a static word.
  predicate OpensStatic(t: Ty) {
    t.TTuple? ==> t.comps == [] || !IsDynamic(t.comps[0])
  }

  // A miscount shows in the first dynamic component: that component does not start
  // with an offset word, or is sought at a static word.
  predicate Telling(ts: seq<Ty>) {
    AnyDynamic(ts) && !Counted(ts) ==> OpensStatic(FirstDynamic(ts)) || !OffsetAt(ts, TotalOffset(ts))
  }

  predicate TellingType(t: Ty) {
    match t
    case TVec(e) => TellingType(e)
    case TTuple(ts) => Telling(ts) && AllTelling(ts)
    case _ => true
  }

  predicate AllTelling(ts: seq<Ty>) {
    ts == [] || (TellingType(ts[0]) && AllTelling(ts[1..]))
  }

  /* Samples: every static word zero but the first of a list, every length one */

  function SampleWord(k: WordKind, lead: nat): (v: Val)
    requires Plain(TWord(k)) && lead <= 1
    ensures HasKind(v, k) && WordSurvives(v, k)
  {
    match k
    case KAddress => VAddress(Fixed(lead, 20))
    case KBool => VBool(lead == 1)
    case KHash => VHash(Fixed(lead, 32))
    case _ => Pow256Monotone(1, k.width); VInt(lead)
  }

  function Sample(t: Ty, lead: nat): (v: Val)
    requires Plain(t) && lead <= 1
    ensures HasType(v, t) && Survives(v, t)
  {
    match t
    case TWord(k) => SampleWord(k, lead)
    case TBytes => VBytes([0])
    case TVec(e) => OneElement(e, Sample(e, 1)); VList([Sample(e, 1)])
    case TTuple(ts) => VList(SampleAll(ts, if AnyDynamic(ts) then 1 else lead))
  }

  function SampleAll(ts: seq<Ty>, lead: nat): (vs: seq<Val>)
    requires AllPlain(ts) && lead <= 1
    ensures HasTypes(vs, ts) && AllSurvive(vs, ts)
  {
    if ts == [] then []
    else
      var v, rest := Sample(ts[0], lead), SampleAll(ts[1..], 0);
      assert ([v] + rest)[1..] == rest;
      [v] + rest
  }

  lemma OneElement(e: Ty, v: Val)
    requires HasType(v, e)
    ensures Copies(e, 1) == [e] && HasTypes([v], [e])
    ensures AllSurvive([v], [e]) <==> Survives(v, e)
  {
    assert [v][1..] == [] && [e][1..] == [];
  }

  /* The words of an encoding */

  lemma {:induction false} HeadSizesAligned(ts: seq<Ty>)
    ensures HeadSizes(ts) % 32 == 0 && TotalOffset(ts) % 32 == 0
  {
    if ts != [] {
      HeadSizeAligned(ts[0]);
      HeadSizesAligned(ts[1..]);
    }
  }

  lemma {:induction false} HeadSizeAligned(t: Ty)
    ensures HeadSize(t) % 32 == 0
  {
    if t.TTuple? {
      HeadSizesAligned(t.comps);
    }
  }

  lemma {:induction false} EncAligned(v: Val, t: Ty)
    requires HasType(v, t)
    ensures |Enc(v, t)| % 32 == 0
    decreases v, 2
  {
    hide Fixed, EncodeWord, HeadSizes, HeadSize, TotalOffset, Heads, Tails, Copies, Padded, HasKind;
    match t
    case TWord(_) =>
    case TBytes => PaddedAligned(v.data);
    case TVec(e) => ListAligned(v.vs, Copies(e, |v.vs|), 32 * |v.vs|);
    case TTuple(ts) => ListAligned(v.vs, ts, TotalOffset(ts));
  }

  lemma PaddedAligned(data: Bytes)
    ensures |Padded(data)| % 32 == 0
  {
  }

  lemma {:induction false} ListAligned(vs: seq<Val>, ts: seq<Ty>, next: nat)
    requires HasTypes(vs, ts)
    ensures |Heads(vs, ts, next) + Tails(vs, ts)| % 32 == 0
    decreases vs, 1
  {
    HeadsLength(vs, ts, next);
    HeadSizesAligned(ts);
    TailsAligned(vs, ts);
  }

  lemma {:induction false} TailsAligned(vs: seq<Val>, ts: seq<Ty>)
    requires HasTypes(vs, ts)
    ensures |Tails(vs, ts)| % 32 == 0
    decreases vs, 0
  {
    hide Fixed, Enc, EncodeWord;
    if vs != [] {
      EncAligned(vs[0], ts[0]);
      TailsAligned(vs[1..], ts[1..]);
    }
  }

  lemma {:induction false} StaticAreGood(ts: seq<Ty>)
    requires AllPlain(ts) && !AnyDynamic(ts)
    ensures GoodTypes(ts)
  {
    if ts != [] {
      StaticIsGood(ts[0]);
      StaticAreGood(ts[1..]);
    }
  }

  lemma {:induction false} StaticIsGood(t: Ty)
    requires Plain(t) && !IsDynamic(t)
    ensures GoodType(t)
  {
    if t.TTuple? {
      StaticAreGood(t.comps);
    }
  }

  lemma {:induction false} NeverOvercounted(ts: seq<Ty>)
    requires AllPlain(ts)
    ensures TotalOffset(ts) <= HeadSizes(ts)
    ensures 32 * |ts| <= TotalOffset(ts)
    decreases ts
  {
    if ts != [] {
      if ts[0].TTuple? && !IsDynamic(ts[0]) {
        StaticAreGood(ts[0].comps);
        HeadSizesLowerBound(ts[0].comps);
      }
      NeverOvercounted(ts[1..]);
    }
  }

  lemma {:induction false} FixedZero(n: nat)
    ensures Fixed(0, n) == Repeat(0, n)
  {
    if n > 0 {
      FixedZero(n - 1);
    }
  }

  lemma ZeroWord(k: WordKind)
    requires Plain(TWord(k))
    ensures EncodeWord(SampleWord(k, 0), k) == Fixed(0, 32)
  {
    FixedZero(20);
    FixedZero(32);
  }

  // The word of the head at position p has a last byte other than one, and is zero
  // unless it is an offset word.
  predicate DullAt(bytes: Bytes, p: nat) {
    p + 32 <= |bytes| && bytes[p + 31] != 1
  }

  predicate HeadWordFacts(heads: Bytes, ts: seq<Ty>, p: nat) {
    DullAt(heads, p) && (!OffsetAt(ts, p) ==> At(heads, p, Fixed(0, 32)))
  }

  lemma {:induction false} HeadWord(ts: seq<Ty>, lead: nat, next: nat, p: nat)
    requires AllPlain(ts) && lead <= 1 && (lead == 0 || p > 0)
    requires p % 32 == 0 && next % 32 == 0 && p + 32 <= HeadSizes(ts)
    ensures HeadWordFacts(Heads(SampleAll(ts, lead), ts, next), ts, p)
    decreases ts, 1
  {
    hide Fixed, Enc, EncodeWord, Heads, HeadSize, DullAt, At, Sample;
    var vs := SampleAll(ts, lead);
    assert vs[0] == Sample(ts[0], lead) && vs[1..] == SampleAll(ts[1..], 0);
    var head := FirstHead(vs, ts, next);
    var next' := NextOffset(vs[0], ts[0], next);
    var rest := Heads(vs[1..], ts[1..], next');
    HeadSizeAligned(ts[0]);
    if p >= |head| {
      EncAligned(vs[0], ts[0]);
      HeadWord(ts[1..], 0, next', p - |head|);
      WordBehind(head, rest, p - |head|);
    } else {
      FirstHeadWord(ts, lead, next, p, head, rest);
    }
  }

  lemma WordBehind(head: Bytes, rest: Bytes, p: nat)
    requires DullAt(rest, p)
    ensures DullAt(head + rest, |head| + p)
    ensures At(rest, p, Fixed(0, 32)) ==> At(head + rest, |head| + p, Fixed(0, 32))
  {
    hide Fixed;
    if At(rest, p, Fixed(0, 32)) {
      AtBehind(head, rest, p, Fixed(0, 32));
    }
  }

  lemma {:induction false} FirstHeadWord(ts: seq<Ty>, lead: nat, next: nat, p: nat, head: Bytes, rest: Bytes)
    requires AllPlain(ts) && ts != [] && lead <= 1 && (lead == 0 || p > 0)
    requires p % 32 == 0 && next % 32 == 0 && p < HeadSize(ts[0]) == |head|
    requires head == if IsDynamic(ts[0]) then Fixed(next, 32) else Enc(Sample(ts[0], lead), ts[0])
    ensures HeadWordFacts(head + rest, ts, p)
    decreases ts, 0
  {
    hide Fixed, Enc, EncodeWord, At, Sample;
    HeadSizeAligned(ts[0]);
    if IsDynamic(ts[0]) {
      OffsetWordIsDull(next);
    } else {
      StaticWord(ts[0], lead, p);
      WordInFront(head, rest, p);
      WordIsDull(head + rest, p);
    }
  }

  lemma WordInFront(head: Bytes, rest: Bytes, p: nat)
    requires At(head, p, Fixed(0, 32))
    ensures At(head + rest, p, Fixed(0, 32))
  {
    hide Fixed;
    assert (head + rest)[p..p + 32] == head[p..p + 32];
  }

  lemma OffsetWordIsDull(next: nat)
    requires next % 32 == 0
    ensures DullAt(Fixed(next, 32), 0)
  {
    assert Fixed(next, 32)[31] == next % 256;
  }

  lemma WordIsDull(bytes: Bytes, p: nat)
    requires At(bytes, p, Fixed(0, 32))
    ensures DullAt(bytes, p)
  {
    assert bytes[p..p + 32][31] == bytes[p + 31];
    assert Fixed(0, 32)[31] == 0;
  }

  lemma {:induction false} StaticWord(t: Ty, lead: nat, p: nat)
    requires Plain(t) && !IsDynamic(t) && lead <= 1 && (lead == 0 || p > 0)
    requires p % 32 == 0 && p + 32 <= HeadSize(t)
    ensures At(Enc(Sample(t, lead), t), p, Fixed(0, 32))
    decreases t
  {
    hide Fixed, EncodeWord;
    match t
    case TWord(k) => ZeroWord(k);
    case TTuple(ts) =>
      HeadSizesAligned(ts);
      HeadWord(ts, lead, TotalOffset(ts), p);
      NoOffsetAt(ts, p);
      NoTails(SampleAll(ts, lead), ts);
  }

  lemma {:induction false} NoOffsetAt(ts: seq<Ty>, p: nat)
    requires !AnyDynamic(ts)
    ensures !OffsetAt(ts, p)
    decreases ts
  {
    if ts != [] && p >= HeadSize(ts[0]) {
      NoOffsetAt(ts[1..], p - HeadSize(ts[0]));
    }
  }

  /* Misreading */

  predicate Yields<T(==)>(r: Outcome<(T, nat)>, v: T) {
    r.Ok? && r.value.0 == v
  }

  lemma {:induction false} LastByte(s: Bytes)
    requires s != []
    ensures BE(s) % 256 == s[|s| - 1]
  {
  }

  lemma LengthIsNotOne(bytes: Bytes, i: nat)
    requires DullAt(bytes, i)
    ensures Word64(bytes, i) != 1
  {
    LastByte(bytes[i..i + 32]);
  }

  lemma WordMisread(w: Bytes, k: WordKind)
    requires |w| == 32 && w[31] != 1 && Plain(TWord(k))
    ensures DecodeWord(w, k) != Ok(SampleWord(k, 1))
  {
    LastByte(w);
    BEBound(w);
    WidthConstants();
    assert Fixed(1, 32)[31] == 1 && Fixed(1, 20)[19] == 1;
    assert w[12..32][19] == w[31];
  }

  lemma {:induction false} StaticMisread(bytes: Bytes, i: nat, t: Ty)
    requires Plain(t) && !IsDynamic(t) && DullAt(bytes, i)
    ensures !Yields(Dec(bytes, i, t), Sample(t, 1))
  {
    hide SampleWord, DecodeWord;
    match t
    case TWord(k) => WordMisread(bytes[i..i + 32], k);
    case TTuple(ts) => StaticMisread(bytes, i, ts[0]);
  }

  lemma {:induction false} DecVecLength(bytes: Bytes, index: nat, e: Ty, n: nat)
    ensures var r := DecVec(bytes, index, e, n); r.Ok? ==> |r.value.0| == n
    decreases n
  {
    if n > 0 {
      var r := Dec(bytes, index, e);
      if r.Ok? {
        DecVecLength(bytes, r.value.1, e, n - 1);
      }
    }
  }

  // The component that the word at index refers to does not start where that word says.
  lemma {:induction false} Misled(bytes: Bytes, index: nat, t: Ty, at: nat)
    requires Plain(t) && IsDynamic(t) && |bytes| < U64
    requires index + 32 <= |bytes| && Word64(bytes, index) == at && DullAt(bytes, at)
    requires OpensStatic(t) || At(bytes, at, Fixed(0, 32))
    ensures !Yields(Dec(bytes, index, t), Sample(t, 1))
    decreases t
  {
    hide Fixed, BE;
    LengthIsNotOne(bytes, at);
    match t
    case TBytes =>
    case TVec(e) =>
      DecVecLength(bytes[at + 32..], 0, e, Word64(bytes, at));
    case TTuple(ts) =>
      var view := bytes[at..];
      assert view[31] == bytes[at + 31];
      if IsDynamic(ts[0]) {
        AtShift(bytes, at, 0, Fixed(0, 32));
        WordAt(view, 0, 0);
        Misled(view, 0, ts[0], 0);
      } else {
        StaticMisread(view, 0, ts[0]);
      }
  }

  // A list whose first offset word leads to a dull word.
  lemma {:induction false} ListMisled(bytes: Bytes, index: nat, ts: seq<Ty>, lead: nat, next: nat)
    requires AllPlain(ts) && AnyDynamic(ts) && lead <= 1 && |bytes| < U64
    requires At(bytes, index, Heads(SampleAll(ts, lead), ts, next)) && DullAt(bytes, next)
    requires OpensStatic(FirstDynamic(ts)) || At(bytes, next, Fixed(0, 32))
    ensures !Yields(DecSeq(bytes, index, ts), SampleAll(ts, lead))
    decreases ts
  {
    hide Fixed, BE, EncodeWord, Enc, DullAt, Dec, Word64, Heads, Sample;
    var vs := SampleAll(ts, lead);
    assert vs[0] == Sample(ts[0], lead) && vs[1..] == SampleAll(ts[1..], 0);
    var head := FirstHead(vs, ts, next);
    AtSplit(bytes, index, head, Heads(vs[1..], ts[1..], NextOffset(vs[0], ts[0], next)));
    if IsDynamic(ts[0]) {
      InBounds(bytes, next);
      WordAt(bytes, index, next);
      Misled(bytes, index, ts[0], next);
      LeadIsIrrelevant(ts[0], lead);
    } else {
      StaticIsGood(ts[0]);
      DecodesPlaced(bytes, index, vs[0], ts[0], 0);
      ListMisled(bytes, index + HeadSize(ts[0]), ts[1..], 0, next);
    }
  }

  lemma InBounds(bytes: Bytes, p: nat)
    requires DullAt(bytes, p)
    ensures p + 32 <= |bytes|
  {
  }

  lemma LeadIsIrrelevant(t: Ty, lead: nat)
    requires Plain(t) && IsDynamic(t) && lead <= 1
    ensures Sample(t, lead) == Sample(t, 1)
  {
  }

  /* Lists that are not good */

  // A component that is not good does not come back from where it was placed.
  lemma {:induction false} NotBack(bytes: Bytes, index: nat, t: Ty, lead: nat, tail: nat)
    requires Plain(t) && TellingType(t) && !GoodType(t) && lead <= 1 && |bytes| < U64
    requires Placed(bytes, index, Sample(t, lead), t, tail)
    ensures !Yields(Dec(bytes, index, t), Sample(t, lead))
    decreases t, 1
  {
    hide Fixed, BE;
    match t
    case TVec(e) => VectorNotBack(bytes, index, e, tail);
    case TTuple(ts) =>
      if !AnyDynamic(ts) {
        StaticIsGood(t);
      } else {
        WordAt(bytes, index, tail);
        AtShift(bytes, tail, 0, EncodeData(SampleAll(ts, 1), ts));
        ListNotBack(bytes[tail..], ts);
      }
  }

  lemma {:induction false} VectorNotBack(bytes: Bytes, index: nat, e: Ty, tail: nat)
    requires Plain(e) && TellingType(e) && !GoodType(e) && |bytes| < U64
    requires Placed(bytes, index, Sample(TVec(e), 1), TVec(e), tail)
    ensures !Yields(Dec(bytes, index, TVec(e)), Sample(TVec(e), 1))
    decreases e, 2
  {
    hide Fixed, BE, Dec, Locate;
    var v := Sample(e, 1);
    OneElement(e, v);
    assert [v][1..] == [] && [e][1..] == [];
    if !IsDynamic(e) {
      StaticIsGood(e);
    }
    var enc := Enc(v, e);
    assert Heads([v], [e], 32) == Fixed(32, 32) + [] == Fixed(32, 32);
    assert Tails([v], [e]) == enc + [] == enc;
    LocatesPlaced(bytes, index, tail, 1, Fixed(32, 32) + enc);
    AtSplit(bytes, tail + 32, Fixed(32, 32), enc);
    var view := bytes[tail + 32..];
    AtShift(bytes, tail + 32, 0, Fixed(32, 32));
    AtShift(bytes, tail + 32, 32, enc);
    NotBack(view, 0, e, 1, 32);
    DecOfVector(bytes, index, e, tail + 32, 1);
    OneDecoded(view, e);
  }

  lemma OneDecoded(view: Bytes, e: Ty)
    ensures var r, one := Dec(view, 0, e), DecVec(view, 0, e, 1);
      if r.Ok? then one.Ok? && one.value.0 == [r.value.0] else !one.Ok?
  {
    var r := Dec(view, 0, e);
    if r.Ok? {
      assert DecVec(view, r.value.1, e, 0) == Ok(([], r.value.1));
      assert [r.value.0] + [] == [r.value.0];
    }
  }

  lemma {:induction false} ListNotBack(view: Bytes, ts: seq<Ty>)
    requires ts != [] && AllPlain(ts) && Telling(ts) && AllTelling(ts) && |view| < U64
    requires !(GoodTypes(ts) && Counted(ts))
    requires At(view, 0, EncodeData(SampleAll(ts, 1), ts))
    ensures !Yields(DecSeq(view, 0, ts), SampleAll(ts, 1))
    decreases ts, 1
  {
    hide Fixed, BE, Dec, DecSeq, SampleAll, Enc;
    var vs, next := SampleAll(ts, 1), TotalOffset(ts);
    var heads, tails := Heads(vs, ts, next), Tails(vs, ts);
    HeadsLength(vs, ts, next);
    AtSplit(view, 0, heads, tails);
    if Counted(ts) {
      ComponentNotBack(view, 0, ts, 1, next);
    } else {
      NeverOvercounted(ts);
      HeadSizesAligned(ts);
      HeadWord(ts, 1, next, next);
      WordOfHead(view, heads, next);
      ListMisled(view, 0, ts, 1, next);
    }
  }

  lemma WordOfHead(view: Bytes, heads: Bytes, p: nat)
    requires At(view, 0, heads) && DullAt(heads, p)
    ensures DullAt(view, p)
    ensures At(heads, p, Fixed(0, 32)) ==> At(view, p, Fixed(0, 32))
  {
    assert heads[p + 31] == view[p + 31];
    assert heads[p..p + 32] == view[p..p + 32];
  }

  lemma {:induction false} ComponentNotBack(view: Bytes, index: nat, ts: seq<Ty>, lead: nat, next: nat)
    requires AllPlain(ts) && AllTelling(ts) && !GoodTypes(ts) && lead <= 1 && |view| < U64
    requires At(view, index, Heads(SampleAll(ts, lead), ts, next))
    requires AnyDynamic(ts) ==> At(view, next, Tails(SampleAll(ts, lead), ts))
    ensures !Yields(DecSeq(view, index, ts), SampleAll(ts, lead))
    decreases ts, 0
  {
    hide Fixed, BE, EncodeWord, Enc, Dec, Placed, At;
    var vs := SampleAll(ts, lead);
    assert vs[0] == Sample(ts[0], lead) && vs[1..] == SampleAll(ts[1..], 0);
    FirstPlaced(view, index, vs, ts, next);
    if GoodType(ts[0]) {
      DecodesPlaced(view, index, vs[0], ts[0], next);
      ComponentNotBack(view, index + HeadSize(ts[0]), ts[1..], 0, NextOffset(vs[0], ts[0], next));
    } else {
      NotBack(view, index, ts[0], lead, next);
    }
  }

  // The offset word of a dynamic component names the start of its tail exactly when
  // the list is counted.
  lemma OffsetsHoldExactly(vs: seq<Val>, ts: seq<Ty>, i: nat)
    requires AllPlain(ts) && HasTypes(vs, ts) && i < |ts| && IsDynamic(ts[i]) && HasType(vs[i], ts[i])
    requires |EncodeData(vs, ts)| < U64
    ensures var encoding, tail := EncodeData(vs, ts), HeadSizes(ts) + TailsBefore(vs, ts, i);
      && At(encoding, tail, Enc(vs[i], ts[i]))
      && HeadsBefore(ts, i) + 32 <= |encoding|
      && (Word64(encoding, HeadsBefore(ts, i)) == tail <==> Counted(ts))
  {
    hide Fixed, BE, Enc, EncodeWord, HasTypes;
    var next := TotalOffset(ts);
    OffsetsPointAtTails(vs, ts, next, i);
    NeverOvercounted(ts);
    WordAt(EncodeData(vs, ts), HeadsBefore(ts, i), next + TailsBefore(vs, ts, i));
    SomeDynamic(ts, i);
  }

  lemma {:induction false} SomeDynamic(ts: seq<Ty>, i: nat)
    requires i < |ts| && IsDynamic(ts[i])
    ensures AnyDynamic(ts)
  {
    if i > 0 {
      SomeDynamic(ts[1..], i - 1);
    }
  }

  // A static component stands in place in the head.
  lemma {:induction false} StaticInPlace(vs: seq<Val>, ts: seq<Ty>, next: nat, i: nat)
    requires HasTypes(vs, ts) && i < |ts| && !IsDynamic(ts[i]) && HasType(vs[i], ts[i])
    ensures At(Heads(vs, ts, next), HeadsBefore(ts, i), Enc(vs[i], ts[i]))
    decreases i
  {
    hide Fixed, Enc, EncodeWord, Heads;
    var head := FirstHead(vs, ts, next);
    var next' := NextOffset(vs[0], ts[0], next);
    var rest := Heads(vs[1..], ts[1..], next');
    if i == 0 {
      AtFront(head, rest);
    } else {
      StaticInPlace(vs[1..], ts[1..], next', i - 1);
      AtBehind(head, rest, HeadsBefore(ts[1..], i - 1), Enc(vs[i], ts[i]));
    }
  }

  // The word of a value: numbers in two's complement, addresses, hashes and truth values at the right end.
  lemma WordsAre(v: Val, k: WordKind)
    requires HasKind(v, k)
    ensures var w := EncodeWord(v, k);
      && |w| == 32
      && (k.KUint? ==> BE(w) == v.n)
      && (k.KInt? ==> BE(w) == if v.n < 0 then U256 + v.n else v.n)
      && (k.KAddress? ==> w == Repeat(0, 12) + v.a)
      && (k.KBool? ==> w == Repeat(0, 31) + [if v.b then 1 else 0])
      && (k.KHash? ==> w == v.h)
  {
    hide Fixed, BE;
    match k
    case KUint(w) =>
      Pow256Monotone(w, 32);
      FixedValue(v.n, 32);
    case KInt(w) =>
      KindRange(v.n, w);
      IntWordValue(v.n);
    case _ =>
  }

  // A byte string: its length, its bytes, and zeros up to the next multiple of 32, a whole word of them for none.
  lemma BytesAre(data: Bytes)
    requires |data| <= MAX_DATA
    ensures var w := Enc(VBytes(data), TBytes);
      && |w| % 32 == 0 && (if data == [] then |w| == 64 else |data| <= |w| - 32 < |data| + 32)
      && BE(w[..32]) == |data| && w[32..32 + |data|] == data
      && w[32 + |data|..] == Repeat(0, |w| - 32 - |data|)
  {
    EncOfBytes(data);
    LengthWord(|data|);
    PaddedIs(data);
    hide *;
    Slices(Fixed(|data|, 32), Padded(data), |data|);
    OneWordMore(|Padded(data)|);
  }

  lemma EncOfBytes(data: Bytes)
    requires |data| <= MAX_DATA
    ensures Enc(VBytes(data), TBytes) == Fixed(|data|, 32) + Padded(data)
  {
    hide Fixed, Padded;
  }

  lemma OneWordMore(n: nat)
    ensures (32 + n) % 32 == n % 32
  {
  }

  lemma Slices(a: Bytes, b: Bytes, n: nat)
    requires n <= |b|
    ensures (a + b)[..|a|] == a && (a + b)[|a|..|a| + n] == b[..n] && (a + b)[|a| + n..] == b[n..]
  {
  }

  lemma LengthWord(n: nat)
    requires n < U64
    ensures BE(Fixed(n, 32)) == n
  {
    WidthConstants();
    Pow256Monotone(8, 32);
    FixedValue(n, 32);
  }

  lemma PaddedIs(data: Bytes)
    ensures var r := Padded(data);
      && |r| % 32 == 0 && (if data == [] then |r| == 32 else |data| <= |r| < |data| + 32)
      && r[..|data|] == data && r[|data|..] == Repeat(0, |r| - |data|)
  {
  }

  // A vector: its length, then its elements laid out as a list of equal types whose offsets count from behind the
  // length.
  lemma VectorsAre(vs: seq<Val>, e: Ty)
    requires HasType(VList(vs), TVec(e)) && |vs| < U64
    ensures HasTypes(vs, Copies(e, |vs|))
    ensures var w := Enc(VList(vs), TVec(e));
      && |w| >= 32 && BE(w[..32]) == |vs|
      && w[32..] == Heads(vs, Copies(e, |vs|), 32 * |vs|) + Tails(vs, Copies(e, |vs|))
  {
    LengthWord(|vs|);
    hide Fixed, BE, Heads, Tails;
  }

  // A type list brings back every value whose signed words survive exactly when the
  // offsets of every component list in it are counted from the size of its head.
  lemma RoundTripsExactly(ts: seq<Ty>)
    requires ts != [] && AllPlain(ts) && Telling(ts) && AllTelling(ts)
    requires |EncodeData(SampleAll(ts, 1), ts)| < U64
    ensures RoundTrips(ts) <==> GoodTypes(ts) && Counted(ts)
  {
    var sample := SampleAll(ts, 1);
    if GoodTypes(ts) && Counted(ts) {
      forall vs | HasTypes(vs, ts) && AllSurvive(vs, ts) && |EncodeData(vs, ts)| < U64
        ensures DecodeData(EncodeData(vs, ts), ts) == Ok(vs)
      {
        assert EncodeData(vs, ts) + [] == EncodeData(vs, ts);
        AbiRoundTrip(vs, ts, []);
      }
    } else {
      ListNotBack(EncodeData(sample, ts), ts);
      assert DecodeData(EncodeData(sample, ts), ts) != Ok(sample);
    }
  }

  /* A miscount that does no harm */

  // The offset of the second component leads to that offset itself, which then leads,
  // read as the offset of the byte string, to where the byte string is.
  const BOXED: Ty := TTuple([PAIR])
  const TEXT: Ty := TTuple([TBytes])
  const LUCKY: seq<Ty> := [BOXED, TEXT]

  lemma OneComponent(t: Ty)
    ensures AnyDynamic([t]) <==> IsDynamic(t)
    ensures GoodTypes([t]) <==> GoodType(t)
    ensures HeadSizes([t]) == HeadSize(t) && TotalOffset([t]) == OffsetFor(t)
  {
    OneMoreType(t, []);
    assert [t] + [] == [t];
  }

  lemma LuckyFacts()
    ensures GoodType(BOXED) && !IsDynamic(BOXED) && HeadSize(BOXED) == 64
    ensures IsDynamic(TEXT) && TotalOffset([TBytes]) == 32
    ensures AnyDynamic(LUCKY) && TotalOffset(LUCKY) == 64 && HeadSizes(LUCKY) == 96
  {
    TwoComponents(WORD, WORD);
    OneComponent(PAIR);
    OneComponent(TBytes);
    TwoComponents(BOXED, TEXT);
  }

  lemma LuckyParts(vs: seq<Val>) returns (v: Val, data: Bytes)
    requires HasTypes(vs, LUCKY)
    ensures vs == [v, VList([VBytes(data)])]
    ensures HasType(v, BOXED) && HasType(VBytes(data), TBytes) && HasType(VList([VBytes(data)]), TEXT)
  {
    assert LUCKY[1..] == [TEXT];
    v := vs[0];
    var w := OnlyValue(vs[1..], TEXT);
    var text := OnlyValue(w.vs, TBytes);
    data := text.data;
  }

  lemma OnlyValue(vs: seq<Val>, t: Ty) returns (v: Val)
    requires HasTypes(vs, [t])
    ensures vs == [v] && HasType(v, t)
  {
    v := vs[0];
  }

  lemma TextLayout(data: Bytes)
    requires HasType(VBytes(data), TBytes) && HasType(VList([VBytes(data)]), TEXT)
    ensures Enc(VList([VBytes(data)]), TEXT) == Fixed(32, 32) + Enc(VBytes(data), TBytes)
  {
    hide Fixed, Padded;
    OneComponent(TBytes);
    var ws := [VBytes(data)];
    assert ws[1..] == [] && [TBytes][1..] == [];
    assert Heads(ws, [TBytes], 32) == Fixed(32, 32) + [] == Fixed(32, 32);
    assert Tails(ws, [TBytes]) == Enc(ws[0], TBytes) + [] == Enc(ws[0], TBytes);
  }

  lemma LuckyLayout(v: Val, w: Val)
    requires HasTypes([v, w], LUCKY) && HasType(v, BOXED) && HasType(w, TEXT)
    ensures EncodeData([v, w], LUCKY) == Enc(v, BOXED) + (Fixed(64, 32) + Enc(w, TEXT))
  {
    hide Fixed, Enc;
    LuckyFacts();
    assert LUCKY[1..] == [TEXT] && [TEXT][1..] == [] && [v, w][1..] == [w] && [w][1..] == [];
    assert Heads([w], [TEXT], 64) == Fixed(64, 32) + [] == Fixed(64, 32);
    assert Tails([w], [TEXT]) == Enc(w, TEXT) + [] == Enc(w, TEXT);
  }

  lemma LuckyDecodes(bytes: Bytes, data: Bytes)
    requires HasType(VBytes(data), TBytes) && |bytes| < U64
    requires At(bytes, 64, Fixed(64, 32)) && At(bytes, 128, Enc(VBytes(data), TBytes))
    ensures Dec(bytes, 64, TEXT) == Ok((VList([VBytes(data)]), 96))
  {
    hide Fixed, BE, Enc, Dec, DecSeq, HasTypes;
    WordAt(bytes, 64, 64);
    AtShift(bytes, 64, 0, Fixed(64, 32));
    AtShift(bytes, 64, 64, Enc(VBytes(data), TBytes));
    DecodesPlaced(bytes[64..], 0, VBytes(data), TBytes, 64);
    OneText(bytes[64..], data);
    DecOfText(bytes, [VBytes(data)]);
  }

  lemma OneText(view: Bytes, data: Bytes)
    requires Dec(view, 0, TBytes) == Ok((VBytes(data), 32))
    ensures DecSeq(view, 0, [TBytes]) == Ok(([VBytes(data)], 32))
  {
    hide Dec;
    assert [TBytes][1..] == [] && [VBytes(data)] + [] == [VBytes(data)];
  }

  lemma DecOfText(bytes: Bytes, vs: seq<Val>)
    requires |bytes| >= 96 && Word64(bytes, 64) == 64 && DecSeq(bytes[64..], 0, [TBytes]) == Ok((vs, 32))
    ensures Dec(bytes, 64, TEXT) == Ok((VList(vs), 96))
  {
    hide DecSeq, Word64;
    LuckyFacts();
  }

  // Counting is not needed of every list: this one is miscounted and brings every
  // value back.
  lemma LuckyRoundTrips()
    ensures !Counted(LUCKY) && RoundTrips(LUCKY)
  {
    LuckyFacts();
    forall vs | HasTypes(vs, LUCKY) && AllSurvive(vs, LUCKY) && |EncodeData(vs, LUCKY)| < U64
      ensures DecodeData(EncodeData(vs, LUCKY), LUCKY) == Ok(vs)
    {
      LuckyValue(vs);
    }
  }

  lemma LuckyValue(vs: seq<Val>)
    requires HasTypes(vs, LUCKY) && AllSurvive(vs, LUCKY) && |EncodeData(vs, LUCKY)| < U64
    ensures DecodeData(EncodeData(vs, LUCKY), LUCKY) == Ok(vs)
  {
    hide Fixed, BE, Enc, Dec;
    LuckyFacts();
    var v, data := LuckyParts(vs);
    var w, bytes := VList([VBytes(data)]), EncodeData(vs, LUCKY);
    TextLayout(data);
    LuckyLayout(v, w);
    StaticLength(v, BOXED);
    var text := Fixed(32, 32) + Enc(VBytes(data), TBytes);
    AtSplit(bytes, 0, Enc(v, BOXED), Fixed(64, 32) + text);
    AtSplit(bytes, 64, Fixed(64, 32), text);
    AtSplit(bytes, 96, Fixed(32, 32), Enc(VBytes(data), TBytes));
    DecodesPlaced(bytes, 0, v, BOXED, 0);
    ThroughIsIdentity(v, BOXED);
    LuckyDecodes(bytes, data);
    TwoDecoded(bytes, v, w);
  }

  lemma TwoDecoded(bytes: Bytes, v: Val, w: Val)
    requires Dec(bytes, 0, BOXED) == Ok((v, 64)) && Dec(bytes, 64, TEXT) == Ok((w, 96))
    ensures DecodeData(bytes, LUCKY) == Ok([v, w])
  {
    hide Dec;
    assert LUCKY[1..] == [TEXT] && [TEXT][1..] == [];
    assert DecSeq(bytes, 64, [TEXT]) == Ok(([w] + [], 96));
    assert [v] + ([w] + []) == [v, w];
  }
}
