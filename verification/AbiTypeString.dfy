/**
 Type strings such as "(uint256,(bool,bytes)[])[][]": the printer of
 ABI::FunctorEncoder (src/contract/abi.h) and the parser of src/utils/jsonabi.cpp.
 */
module AbiTypeString {
  import opened Outcomes

  datatype TypeTree = Base(name: string) | Tuple(components: seq<TypeTree>) | Array(element: TypeTree)

  // A JSON description: a leaf has "type" and "internalType", a tuple "type" and "components".
  datatype Json = Leaf(typ: string) | Node(typ: string, components: seq<Json>)

  // tupleCounter is a uint16_t.
  const U16: int := 0x1_0000

  predicate PlainName(s: string) {
    |s| >= 2 && forall c :: c in s ==> c !in "()[],"
  }

  // Type names without punctuation, no empty tuples.
  predicate Good(t: TypeTree) {
    match t
    case Base(name) => PlainName(name)
    case Array(e) => Good(e)
    case Tuple(ts) => ts != [] && forall i :: 0 <= i < |ts| ==> Good(ts[i])
  }

  predicate AllGood(ts: seq<TypeTree>) {
    forall i :: 0 <= i < |ts| ==> Good(ts[i])
  }

  // TypeName<T>::get.
  function Print(t: TypeTree): string {
    match t
    case Base(name) => name
    case Array(e) => Print(e) + "[]"
    case Tuple(ts) => "(" + Join(ts) + ")"
  }

  // TupleTypeNameHelper: every name followed by a comma, the last comma removed.
  function Join(ts: seq<TypeTree>): string {
    if ts == [] then ""
    else if |ts| == 1 then Print(ts[0])
    else Print(ts[0]) + "," + Join(ts[1..])
  }

  function Prints(ts: seq<TypeTree>): (r: seq<string>)
    ensures |r| == |ts|
  {
    seq(|ts|, i requires 0 <= i < |ts| => Print(ts[i]))
  }

  // ------------------------------------------------------------ the parser

  function IsArray(s: string): Outcome<bool> {
    if |s| < 2 then Undefined else Ok(s[|s| - 2..] == "[]")
  }

  function CountTupleArrays(s: string): (r: Outcome<nat>)
    ensures r.Ok? ==> 2 * r.value <= |s|
  {
    if |s| == 0 || s[|s| - 1] != ']' then Ok(0)
    else if |s| == 1 then Undefined
    else if s[|s| - 2] != '[' then Ok(0)
    else
      var n :- CountTupleArrays(s[..|s| - 2]);
      Ok(n + 1)
  }

  function IsTuple(s: string): Outcome<bool> {
    var isArray :- IsArray(s);
    if s[0] != '(' then Ok(false)
    else if isArray then
      var n :- CountTupleArrays(s);
      if 2 * n == |s| then Undefined else Ok(s[|s| - 2 * n - 1] == ')')
    else Ok(s[|s| - 1] == ')')
  }

  function Counter(k: nat, c: char): (r: nat)
    requires k < U16
    ensures r < U16
  {
    if c == '(' then (k + 1) % U16 else if c == ')' then (k + U16 - 1) % U16 else k
  }

  // The splitting loop, from a counter k and the piece read so far.
  function Scan(s: string, k: nat, piece: string): seq<string>
    requires k < U16
  {
    if s == [] then [piece]
    else
      var l := Counter(k, s[0]);
      if s[0] == ',' && l == 0 then [piece] + Scan(s[1..], l, "")
      else Scan(s[1..], l, piece + [s[0]])
  }

  // What is left of a tuple type between its parentheses.
  function Inside(s: string): (r: Outcome<string>)
    ensures r.Ok? ==> |r.value| < |s|
  {
    if s == [] then Throws
    else
      var isArray :- IsArray(s);
      var n :- if isArray then CountTupleArrays(s) else Ok(0);
      var body := s[1..];
      var bare := if 2 * n <= |body| then body[..|body| - 2 * n] else body;
      Ok(if bare == [] then bare else bare[..|bare| - 1])
  }

  function GetTupleTypes(s: string): (r: Outcome<seq<string>>)
    ensures r.Ok? ==> Total(r.value) <= |s|
  {
    var inside :- Inside(s);
    ScanTotal(inside, 0, "");
    Ok(Scan(inside, 0, ""))
  }

  // Characters of a list of types, counting one for each type.
  function Total(types: seq<string>): nat {
    if types == [] then 0 else |types[0]| + 1 + Total(types[1..])
  }

  lemma {:induction false} ScanTotal(s: string, k: nat, piece: string)
    requires k < U16
    ensures Total(Scan(s, k, piece)) == |piece| + |s| + 1
  {
    if s == [] {
      assert [piece][1..] == [];
    } else {
      var l := Counter(k, s[0]);
      if s[0] == ',' && l == 0 {
        ScanTotal(s[1..], l, "");
        assert ([piece] + Scan(s[1..], l, ""))[1..] == Scan(s[1..], l, "");
      } else {
        ScanTotal(s[1..], l, piece + [s[0]]);
      }
    }
  }

  function Brackets(n: nat): string {
    if n == 0 then "" else Brackets(n - 1) + "[]"
  }

  function Describe(s: string, components: seq<Json>): Outcome<Json> {
    var isArray :- IsArray(s);
    var n :- if isArray then CountTupleArrays(s) else Ok(0);
    Ok(Node("tuple" + Brackets(n), components))
  }

  // Every call is on strictly fewer characters than the one that makes it.
  function Handle(types: seq<string>): (r: Outcome<seq<Json>>)
    ensures r.Ok? ==> |r.value| == |types|
    decreases Total(types), 0
  {
    if types == [] then Ok([])
    else
      var first :- HandleOne(types[0]);
      var rest :- Handle(types[1..]);
      Ok([first] + rest)
  }

  function HandleOne(s: string): Outcome<Json>
    decreases |s|, 1
  {
    var tuple :- IsTuple(s);
    if tuple then
      var inner :- GetTupleTypes(s);
      var components :- Handle(inner);
      Describe(s, components)
    else Ok(Leaf(s))
  }

  // ------------------------------------------------------------ the loops

  method CountBrackets(s: string) returns (r: Outcome<nat>)
    ensures r == CountTupleArrays(s)
  {
    var count := 0;
    var i := |s| - 1;
    assert s[..|s|] == s;
    while i >= 0
      invariant -1 <= i < |s| && 2 * count + i + 1 == |s|
      invariant CountTupleArrays(s) == More(count, CountTupleArrays(s[..i + 1]))
    {
      if s[i] != ']' {
        break;
      }
      if i == 0 {
        return Undefined;
      }
      if s[i - 1] != '[' {
        break;
      }
      assert s[..i + 1][..i - 1] == s[..i - 1];
      count := count + 1;
      i := i - 2;
    }
    r := Ok(count);
  }

  function More(n: nat, r: Outcome<nat>): Outcome<nat> {
    if r.Ok? then Ok(n + r.value) else r
  }

  method SplitTupleTypes(s: string) returns (r: Outcome<seq<string>>)
    ensures r == GetTupleTypes(s)
  {
    var inside := Inside(s);
    if !inside.Ok? {
      return inside.PropagateFailure();
    }
    var tupleString := inside.value;
    var types: seq<string> := [];
    var tmp := "";
    var tupleCounter: nat := 0;
    for i := 0 to |tupleString|
      invariant tupleCounter < U16
      invariant types + Scan(tupleString[i..], tupleCounter, tmp) == Scan(tupleString, 0, "")
    {
      var c := tupleString[i];
      assert tupleString[i..][1..] == tupleString[i + 1..];
      tupleCounter := Counter(tupleCounter, c);
      if c == ',' && tupleCounter == 0 {
        types := types + [tmp];
        tmp := "";
      } else {
        tmp := tmp + [c];
      }
    }
    ScanTotal(tupleString, 0, "");
    r := Ok(types + [tmp]);
  }

  function Behind(done: seq<Json>, r: Outcome<seq<Json>>): Outcome<seq<Json>> {
    if r.Ok? then Ok(done + r.value) else r
  }

  lemma BehindNothing(r: Outcome<seq<Json>>)
    ensures Behind([], r) == r
  {
    if r.Ok? {
      assert [] + r.value == r.value;
    }
  }

  lemma BehindStep(done: seq<Json>, first: Json, r: Outcome<seq<Json>>)
    ensures Behind(done + [first], r) == Behind(done, Behind([first], r))
  {
    if r.Ok? {
      assert done + [first] + r.value == done + ([first] + r.value);
    }
  }

  lemma {:induction false} TotalStep(types: seq<string>, i: nat)
    requires i < |types|
    ensures |types[i]| < Total(types)
  {
    if i > 0 {
      TotalStep(types[1..], i - 1);
    }
  }

  method HandleTupleComponents(tupleTypes: seq<string>) returns (r: Outcome<seq<Json>>)
    ensures r == Handle(tupleTypes)
    decreases Total(tupleTypes)
  {
    var obj: seq<Json> := [];
    assert tupleTypes[0..] == tupleTypes;
    BehindNothing(Handle(tupleTypes));
    for i := 0 to |tupleTypes|
      invariant Handle(tupleTypes) == Behind(obj, Handle(tupleTypes[i..]))
    {
      var s := tupleTypes[i];
      TotalStep(tupleTypes, i);
      assert tupleTypes[i..][1..] == tupleTypes[i + 1..];
      var tuple := IsTuple(s);
      if !tuple.Ok? {
        return tuple.PropagateFailure();
      }
      var compObj := Leaf(s);
      if tuple.value {
        var inner := SplitTupleTypes(s);
        var components := HandleTupleComponents(inner.value);
        if !components.Ok? {
          return components;
        }
        var node := WriteTupleType(s, components.value);
        compObj := node.value;
      }
      BehindStep(obj, compObj, Handle(tupleTypes[i + 1..]));
      obj := obj + [compObj];
    }
    assert obj + [] == obj;
    r := Ok(obj);
  }

  // "tuple" followed by as many brackets as the string has.
  method WriteTupleType(s: string, components: seq<Json>) returns (r: Outcome<Json>)
    ensures r == Describe(s, components)
  {
    var isArray := IsArray(s);
    if !isArray.Ok? {
      return isArray.PropagateFailure();
    }
    var arrayType := "tuple";
    if isArray.value {
      var count := CountBrackets(s);
      if !count.Ok? {
        return count.PropagateFailure();
      }
      for j := 0 to count.value
        invariant arrayType == "tuple" + Brackets(j)
      {
        arrayType := arrayType + "[]";
      }
    }
    assert "tuple" + Brackets(0) == "tuple";
    r := Ok(Node(arrayType, components));
  }

  // ------------------------------------------------------------ what the parser sees

  // The description that mirrors a type tree.
  function Structure(t: TypeTree): Json {
    match t
    case Base(name) => Leaf(name)
    case Tuple(ts) => Node("tuple", Structures(ts))
    case Array(e) => Structure(e).(typ := Structure(e).typ + "[]")
  }

  function Structures(ts: seq<TypeTree>): (r: seq<Json>)
    ensures |r| == |ts|
  {
    if ts == [] then [] else [Structure(ts[0])] + Structures(ts[1..])
  }

  // The type string a description came from.
  function Reprint(j: Json): string {
    match j
    case Leaf(typ) => typ
    case Node(typ, components) =>
      "(" + Rejoin(components) + ")" + if |typ| < 5 then "" else typ[5..]
  }

  function Rejoin(js: seq<Json>): string {
    if js == [] then ""
    else if |js| == 1 then Reprint(js[0])
    else Reprint(js[0]) + "," + Rejoin(js[1..])
  }

  function Arrays(t: TypeTree): nat {
    if t.Array? then 1 + Arrays(t.element) else 0
  }

  predicate OfTuple(t: TypeTree) {
    t.Tuple? || (t.Array? && OfTuple(t.element))
  }

  function Core(t: TypeTree): (c: TypeTree)
    ensures c == t || c < t
  {
    if t.Array? then Core(t.element) else t
  }

  // A printed type is its core followed by its brackets.
  lemma {:induction false} PrintIsCore(t: TypeTree)
    requires Good(t)
    ensures Good(Core(t)) && !Core(t).Array? && Core(t).Tuple? == OfTuple(t)
    ensures Print(t) == Print(Core(t)) + Brackets(Arrays(t))
    ensures |Print(Core(t))| >= 2 && Print(Core(t))[|Print(Core(t))| - 1] != ']'
    ensures Print(Core(t))[0] == '(' <==> OfTuple(t)
    ensures OfTuple(t) ==> Print(Core(t))[|Print(Core(t))| - 1] == ')'
  {
    match t
    case Base(name) =>
      assert Print(t) + "" == Print(t);
      assert name[0] in name && name[|name| - 1] in name;
    case Tuple(_) => assert Print(t) + "" == Print(t);
    case Array(e) =>
      PrintIsCore(e);
      assert Print(Core(t)) + Brackets(Arrays(e)) + "[]" == Print(Core(t)) + (Brackets(Arrays(e)) + "[]");
  }

  lemma CountStep(s: string)
    ensures CountTupleArrays(s + "[]") == More(1, CountTupleArrays(s))
  {
    assert (s + "[]")[..|s|] == s;
  }

  lemma CountOfBare(s: string)
    requires s != [] && s[|s| - 1] != ']'
    ensures CountTupleArrays(s) == Ok(0)
  {
  }

  lemma {:induction false} CountOfBrackets(s: string, n: nat)
    requires s != [] && s[|s| - 1] != ']'
    ensures |Brackets(n)| == 2 * n
    ensures CountTupleArrays(s + Brackets(n)) == Ok(n)
    ensures n > 0 ==> Brackets(n)[2 * n - 2..] == "[]"
  {
    hide CountTupleArrays;
    if n == 0 {
      assert s + "" == s;
      CountOfBare(s);
    } else {
      CountOfBrackets(s, n - 1);
      CountStep(s + Brackets(n - 1));
      assert s + Brackets(n - 1) + "[]" == s + Brackets(n);
    }
  }

  // isTuple and countTupleArrays are exact on printed types.
  lemma PrintedShape(t: TypeTree)
    requires Good(t)
    ensures |Print(t)| >= 2
    ensures IsTuple(Print(t)) == Ok(OfTuple(t))
    ensures CountTupleArrays(Print(t)) == Ok(Arrays(t))
    ensures IsArray(Print(t)) == Ok(t.Array?)
  {
    PrintIsCore(t);
    var core, n := Print(Core(t)), Arrays(t);
    CountOfBrackets(core, n);
    IsArrayOfBrackets(core, n);
    ArraysCounted(t);
    hide Print, Brackets, Core, Arrays, IsArray, CountTupleArrays;
    var s := Print(t);
    assert s[0] == core[0] && s[|s| - 2 * n - 1] == core[|core| - 1];
  }

  lemma ArraysCounted(t: TypeTree)
    ensures t.Array? <==> Arrays(t) > 0
  {
  }

  // ------------------------------------------------------------ scanning a printed type

  // Nested commas, under d open parentheses, at which the counter wraps to zero.
  function Cuts(t: TypeTree, d: nat): nat {
    match t
    case Base(_) => 0
    case Array(e) => Cuts(e, d)
    case Tuple(ts) => (if |ts| > 1 && (d + 1) % U16 == 0 then |ts| - 1 else 0) + CutsAll(ts, d + 1)
  }

  function CutsAll(ts: seq<TypeTree>, d: nat): nat {
    if ts == [] then 0 else Cuts(ts[0], d) + CutsAll(ts[1..], d)
  }

  // The greatest number of parentheses open at a comma of the printed type.
  function CommaDepth(t: TypeTree): nat {
    match t
    case Base(_) => 0
    case Array(e) => CommaDepth(e)
    case Tuple(ts) =>
      var inner := CommaDepthAll(ts);
      if inner > 0 then inner + 1 else if |ts| > 1 then 1 else 0
  }

  function CommaDepthAll(ts: seq<TypeTree>): nat {
    if ts == [] then 0
    else
      var first, rest := CommaDepth(ts[0]), CommaDepthAll(ts[1..]);
      if first > rest then first else rest
  }

  lemma {:induction false} ScanName(name: string, rest: string, k: nat, piece: string)
    requires forall c :: c in name ==> c !in "(),"
    requires k < U16
    ensures Scan(name + rest, k, piece) == Scan(rest, k, piece + name)
  {
    if name == [] {
      assert name + rest == rest && piece + name == piece;
    } else {
      assert name[0] in name;
      assert (name + rest)[1..] == name[1..] + rest;
      ScanName(name[1..], rest, k, piece + [name[0]]);
      assert piece + [name[0]] + name[1..] == piece + name;
    }
  }

  lemma ScanChar(c: char, rest: string, k: nat, piece: string)
    requires k < U16
    ensures Scan([c] + rest, k, piece)
         == if c == ',' && k == 0 then [piece] + Scan(rest, k, "") else Scan(rest, Counter(k, c), piece + [c])
  {
    assert ([c] + rest)[1..] == rest;
  }

  lemma ScanEnd(k: nat, piece: string)
    requires k < U16
    ensures Scan("", k, piece) == [piece]
  {
  }

  // A type without cuts is read whole, and leaves the counter as it was.
  lemma {:induction false} ScanType(t: TypeTree, d: nat, rest: string, piece: string)
    requires Good(t) && Cuts(t, d) == 0
    ensures Scan(Print(t) + rest, d % U16, piece) == Scan(rest, d % U16, piece + Print(t))
  {
    hide Scan;
    match t
    case Base(name) =>
      ScanName(name, rest, d % U16, piece);
    case Array(e) =>
      assert Print(t) + rest == Print(e) + ("[]" + rest);
      ScanType(e, d, "[]" + rest, piece);
      ScanName("[]", rest, d % U16, piece + Print(e));
      assert piece + Print(e) + "[]" == piece + Print(t);
    case Tuple(ts) =>
      assert Print(t) + rest == "(" + (Join(ts) + (")" + rest));
      ScanChar('(', Join(ts) + (")" + rest), d % U16, piece);
      ScanJoined(ts, d + 1, ")" + rest, piece + "(");
      ScanChar(')', rest, (d + 1) % U16, piece + "(" + Join(ts));
      assert piece + "(" + Join(ts) + ")" == piece + Print(t);
  }

  lemma {:induction false} ScanJoined(ts: seq<TypeTree>, d: nat, rest: string, piece: string)
    requires AllGood(ts) && CutsAll(ts, d) == 0
    requires |ts| > 1 ==> d % U16 != 0
    ensures Scan(Join(ts) + rest, d % U16, piece) == Scan(rest, d % U16, piece + Join(ts))
  {
    hide Scan;
    if ts == [] {
      assert "" + rest == rest && piece + "" == piece;
    } else if |ts| == 1 {
      ScanType(ts[0], d, rest, piece);
    } else {
      var more := Join(ts[1..]) + rest;
      assert Join(ts) + rest == Print(ts[0]) + ("," + more);
      ScanType(ts[0], d, "," + more, piece);
      ScanChar(',', more, d % U16, piece + Print(ts[0]));
      ScanJoined(ts[1..], d, rest, piece + Print(ts[0]) + ",");
      assert piece + Print(ts[0]) + "," + Join(ts[1..]) == piece + Join(ts);
    }
  }

  lemma ScanFirst(t: TypeTree, more: string)
    requires Good(t) && Cuts(t, 0) == 0
    ensures Scan(Print(t), 0, "") == [Print(t)]
    ensures Scan(Print(t) + ("," + more), 0, "") == [Print(t)] + Scan(more, 0, "")
  {
    hide Scan, Cuts, Print, Good;
    assert "" + Print(t) == Print(t) && Print(t) + "" == Print(t);
    ScanType(t, 0, "", "");
    ScanEnd(0, Print(t));
    ScanType(t, 0, "," + more, "");
    ScanChar(',', more, 0, Print(t));
  }

  lemma PrintsStep(ts: seq<TypeTree>)
    requires ts != []
    ensures Prints(ts) == [Print(ts[0])] + Prints(ts[1..])
  {
  }

  // Outside all parentheses every comma separates two components.
  lemma {:induction false} ScanComponents(ts: seq<TypeTree>)
    requires AllGood(ts) && ts != [] && CutsAll(ts, 0) == 0
    ensures Scan(Join(ts), 0, "") == Prints(ts)
  {
    hide Scan, Cuts, Print, Good, Prints;
    ScanFirst(ts[0], Join(ts[1..]));
    PrintsStep(ts);
    if |ts| == 1 {
      NoPrints(ts[1..]);
    } else {
      assert Join(ts) == Print(ts[0]) + ("," + Join(ts[1..]));
      ScanComponents(ts[1..]);
    }
  }

  lemma NoPrints(ts: seq<TypeTree>)
    requires ts == []
    ensures Prints(ts) == []
  {
  }

  // ------------------------------------------------------------ how many pieces

  function Pieces(s: string, k: nat): nat
    requires k < U16
  {
    if s == [] then 1
    else
      var l := Counter(k, s[0]);
      (if s[0] == ',' && l == 0 then 1 else 0) + Pieces(s[1..], l)
  }

  lemma {:induction false} ScanPieces(s: string, k: nat, piece: string)
    requires k < U16
    ensures |Scan(s, k, piece)| == Pieces(s, k)
  {
    if s != [] {
      var l := Counter(k, s[0]);
      ScanPieces(s[1..], l, if s[0] == ',' && l == 0 then "" else piece + [s[0]]);
    }
  }

  lemma {:induction false} PiecesOfName(name: string, rest: string, k: nat)
    requires forall c :: c in name ==> c !in "(),"
    requires k < U16
    ensures Pieces(name + rest, k) == Pieces(rest, k)
  {
    if name == [] {
      assert name + rest == rest;
    } else {
      assert name[0] in name;
      assert (name + rest)[1..] == name[1..] + rest;
      PiecesOfName(name[1..], rest, k);
    }
  }

  lemma PiecesOfChar(c: char, rest: string, k: nat)
    requires k < U16
    ensures Pieces([c] + rest, k) == (if c == ',' && k == 0 then 1 else 0) + Pieces(rest, Counter(k, c))
  {
    assert ([c] + rest)[1..] == rest;
  }

  lemma {:induction false} PiecesOfType(t: TypeTree, d: nat, rest: string)
    requires Good(t)
    ensures Pieces(Print(t) + rest, d % U16) == Cuts(t, d) + Pieces(rest, d % U16)
  {
    hide Pieces;
    match t
    case Base(name) =>
      PiecesOfName(name, rest, d % U16);
    case Array(e) =>
      assert Print(t) + rest == Print(e) + ("[]" + rest);
      PiecesOfType(e, d, "[]" + rest);
      PiecesOfName("[]", rest, d % U16);
    case Tuple(ts) =>
      assert Print(t) + rest == "(" + (Join(ts) + (")" + rest));
      PiecesOfChar('(', Join(ts) + (")" + rest), d % U16);
      PiecesOfJoined(ts, d + 1, ")" + rest);
      PiecesOfChar(')', rest, (d + 1) % U16);
  }

  lemma {:induction false} PiecesOfJoined(ts: seq<TypeTree>, d: nat, rest: string)
    requires AllGood(ts)
    ensures Pieces(Join(ts) + rest, d % U16)
         == (if |ts| > 1 && d % U16 == 0 then |ts| - 1 else 0) + CutsAll(ts, d) + Pieces(rest, d % U16)
  {
    hide Pieces, Cuts;
    if ts == [] {
      assert "" + rest == rest;
    } else if |ts| == 1 {
      PiecesOfType(ts[0], d, rest);
      assert CutsAll(ts[1..], d) == 0;
    } else {
      var more := Join(ts[1..]) + rest;
      assert Join(ts) + rest == Print(ts[0]) + ("," + more);
      PiecesOfType(ts[0], d, "," + more);
      PiecesOfChar(',', more, d % U16);
      PiecesOfJoined(ts[1..], d, rest);
    }
  }

  // ------------------------------------------------------------ when the counter wraps

  lemma {:induction false} ShallowIsUncut(t: TypeTree, d: nat)
    requires CommaDepth(t) > 0 ==> d + CommaDepth(t) < U16
    ensures Cuts(t, d) == 0
  {
    match t
    case Base(_) =>
    case Array(e) => ShallowIsUncut(e, d);
    case Tuple(ts) => ShallowAreUncut(ts, d + 1);
  }

  lemma {:induction false} ShallowAreUncut(ts: seq<TypeTree>, d: nat)
    requires CommaDepthAll(ts) > 0 ==> d + CommaDepthAll(ts) < U16
    ensures CutsAll(ts, d) == 0
  {
    if ts != [] {
      ShallowIsUncut(ts[0], d);
      ShallowAreUncut(ts[1..], d);
    }
  }

  lemma {:induction false} DeepestIsCut(t: TypeTree, d: nat)
    requires CommaDepth(t) > 0 && (d + CommaDepth(t)) % U16 == 0
    ensures Cuts(t, d) > 0
  {
    match t
    case Array(e) => DeepestIsCut(e, d);
    case Tuple(ts) =>
      if CommaDepthAll(ts) > 0 {
        DeepestAreCut(ts, d + 1);
      }
  }

  lemma {:induction false} DeepestAreCut(ts: seq<TypeTree>, d: nat)
    requires CommaDepthAll(ts) > 0 && (d + CommaDepthAll(ts)) % U16 == 0
    ensures CutsAll(ts, d) > 0
  {
    if CommaDepth(ts[0]) > CommaDepthAll(ts[1..]) {
      DeepestIsCut(ts[0], d);
    } else {
      DeepestAreCut(ts[1..], d);
    }
  }

  // ------------------------------------------------------------ the parser undoes the printer

  lemma IsArrayOfBrackets(core: string, n: nat)
    requires |core| >= 2 && core[|core| - 1] != ']'
    ensures IsArray(core + Brackets(n)) == Ok(n > 0)
  {
    CountOfBrackets(core, n);
    var s := core + Brackets(n);
    if n == 0 {
      assert s == core;
      assert s[|s| - 2..][1] == core[|core| - 1];
    } else {
      assert s[|s| - 2..] == Brackets(n)[2 * n - 2..];
    }
  }

  lemma InsideOfBrackets(core: string, n: nat)
    requires |core| >= 2 && core[|core| - 1] == ')'
    ensures Inside(core + Brackets(n)) == Ok(core[1..][..|core| - 2])
  {
    IsArrayOfBrackets(core, n);
    CountOfBrackets(core, n);
    hide CountTupleArrays, Brackets, IsArray;
    InnerPart(core, Brackets(n));
  }

  lemma InnerPart(core: string, suffix: string)
    requires |core| >= 2
    ensures var s := core + suffix; s[1..][..|s| - 1 - |suffix|] == core[1..]
  {
    var s := core + suffix;
    assert s[1..] == core[1..] + suffix;
  }

  lemma InsideOfPrinted(t: TypeTree)
    requires Good(t) && OfTuple(t)
    ensures Core(t).Tuple? && Inside(Print(t)) == Ok(Join(Core(t).components))
  {
    hide Inside, Join, Brackets;
    PrintIsCore(t);
    var core, inner := Print(Core(t)), Join(Core(t).components);
    InsideOfBrackets(core, Arrays(t));
    assert core[1..][..|core| - 2] == inner;
  }

  // getTupleTypes returns exactly the printed components, or, where the counter wraps, more than that.
  lemma TupleTypesOfPrinted(t: TypeTree)
    requires Good(t) && OfTuple(t)
    ensures Core(t).Tuple? && GetTupleTypes(Print(t)).Ok?
    ensures |GetTupleTypes(Print(t)).value| == |Core(t).components| + CutsAll(Core(t).components, 0)
    ensures CutsAll(Core(t).components, 0) == 0 <==> GetTupleTypes(Print(t)) == Ok(Prints(Core(t).components))
  {
    hide *;
    CoreComponents(t);
    var ts := Core(t).components;
    InsideOfPrinted(t);
    TypesOfInside(Print(t), Join(ts));
    ScanOfJoined(ts);
  }

  lemma CoreComponents(t: TypeTree)
    requires Good(t) && OfTuple(t)
    ensures Core(t).Tuple? && AllGood(Core(t).components) && Core(t).components != []
  {
    hide Print, Brackets, Arrays, Core;
    PrintIsCore(t);
  }

  lemma TypesOfInside(s: string, inner: string)
    requires Inside(s) == Ok(inner)
    ensures GetTupleTypes(s) == Ok(Scan(inner, 0, ""))
  {
    hide Inside, Scan;
  }

  lemma ScanOfJoined(ts: seq<TypeTree>)
    requires AllGood(ts) && ts != []
    ensures |Scan(Join(ts), 0, "")| == |ts| + CutsAll(ts, 0)
    ensures CutsAll(ts, 0) == 0 <==> Scan(Join(ts), 0, "") == Prints(ts)
  {
    hide Scan, Pieces, Join, CutsAll, Prints, AllGood, Good;
    ScanPieces(Join(ts), 0, "");
    PiecesOfJoined(ts, 0, "");
    NoPieces(0);
    assert Join(ts) + "" == Join(ts);
    if CutsAll(ts, 0) == 0 {
      ScanComponents(ts);
    }
  }

  lemma NoPieces(k: nat)
    requires k < U16
    ensures Pieces("", k) == 1
  {
  }

  lemma {:induction false} StructureOfTuple(t: TypeTree)
    requires Good(t)
    ensures OfTuple(t) ==> Core(t).Tuple?
    ensures Structure(t) == if OfTuple(t) then Node("tuple" + Brackets(Arrays(t)), Structures(Core(t).components))
                            else Leaf(Print(t))
    ensures CommaDepth(t) == CommaDepth(Core(t))
  {
    match t
    case Base(_) =>
    case Tuple(_) => assert "tuple" + "" == "tuple";
    case Array(e) =>
      StructureOfTuple(e);
      assert "tuple" + Brackets(Arrays(e)) + "[]" == "tuple" + Brackets(Arrays(t));
  }

  // handleTupleComponents builds the structural component tree exactly when no comma stands under more than
  // 2^16 open parentheses.
  lemma {:induction false} ComponentsOfPrinted(ts: seq<TypeTree>)
    requires AllGood(ts)
    ensures Handle(Prints(ts)) == Ok(Structures(ts)) <==> CommaDepthAll(ts) <= U16
    decreases ts
  {
    if ts != [] {
      var t := ts[0];
      ComponentsOfPrinted(ts[1..]);
      OneComponent(t);
      HandleFirst(ts);
    }
  }

  lemma HandleFirst(ts: seq<TypeTree>)
    requires ts != []
    ensures Handle(Prints(ts)) == Ok(Structures(ts))
       <==> HandleOne(Print(ts[0])) == Ok(Structure(ts[0])) && Handle(Prints(ts[1..])) == Ok(Structures(ts[1..]))
  {
    hide HandleOne, Print, Structure;
    assert Prints(ts)[1..] == Prints(ts[1..]);
    assert Structures(ts)[0] == Structure(ts[0]) && Structures(ts)[1..] == Structures(ts[1..]);
  }

  lemma OneComponent(t: TypeTree)
    requires Good(t)
    ensures HandleOne(Print(t)) == Ok(Structure(t)) <==> CommaDepth(t) <= U16
    decreases t
  {
    hide Handle, HandleOne, Print, Structure, Structures, Prints, Cuts, CutsAll, CommaDepthAll, GetTupleTypes;
    hide Good, Brackets, Join, OfTuple;
    StructureOfTuple(t);
    PrintIsCore(t);
    HandleOfPrinted(t);
    if OfTuple(t) {
      var cs := Core(t).components;
      TupleTypesOfPrinted(t);
      ComponentsOfPrinted(cs);
      CutsOfDepth(cs);
    }
  }

  lemma CutsOfDepth(ts: seq<TypeTree>)
    ensures CommaDepthAll(ts) < U16 ==> CutsAll(ts, 0) == 0
    ensures CommaDepthAll(ts) == U16 ==> CutsAll(ts, 0) > 0
  {
    if CommaDepthAll(ts) < U16 {
      ShallowAreUncut(ts, 0);
    } else if CommaDepthAll(ts) == U16 {
      DeepestAreCut(ts, 0);
    }
  }

  lemma HandleOfPrinted(t: TypeTree)
    requires Good(t)
    ensures !OfTuple(t) ==> HandleOne(Print(t)) == Ok(Leaf(Print(t)))
    ensures OfTuple(t) && GetTupleTypes(Print(t)).Ok? ==>
      var inner := Handle(GetTupleTypes(Print(t)).value);
      HandleOne(Print(t)) == if inner.Ok? then Ok(Node("tuple" + Brackets(Arrays(t)), inner.value))
                             else inner.PropagateFailure()
  {
    PrintedShape(t);
    hide Print, GetTupleTypes, Handle;
  }

  // The component tree determines the string it came from.
  lemma {:induction false} ReprintOfStructure(t: TypeTree)
    requires Good(t)
    ensures Reprint(Structure(t)) == Print(t)
    ensures OfTuple(t) <==> Structure(t).Node?
    ensures OfTuple(t) ==> |Structure(t).typ| >= 5
  {
    match t
    case Base(_) =>
    case Array(e) =>
      ReprintOfStructure(e);
    case Tuple(ts) =>
      RejoinOfStructures(ts);
  }

  lemma {:induction false} RejoinOfStructures(ts: seq<TypeTree>)
    requires AllGood(ts)
    ensures Rejoin(Structures(ts)) == Join(ts)
  {
    if ts != [] {
      ReprintOfStructure(ts[0]);
      RejoinOfStructures(ts[1..]);
      assert Structures(ts)[1..] == Structures(ts[1..]);
    }
  }
}
