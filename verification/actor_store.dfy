/** The structure-of-arrays actor container (`Actors` in Model.h/Model.cpp).
    Four parallel sequences share one index, and a separate counter
    `length` plays the role of `m_length`. */
module ActorStore {
  import opened Wrappers

  /** The closed set of actor kinds. */
  datatype ActorType = Player | Rock | Stick

  /** Block coordinates, sub-block position (a float in the engine, an exact
      real here) and extent of one actor. */
  datatype PositionData = PositionData(blockX: int, blockY: int, x: real, y: real, w: int, h: int)

  /** Velocity and acceleration (floats in the engine). */
  datatype MovementData = MovementData(vx: real, vy: real, ax: real, ay: real)

  /** `std::bitset<32>` of boolean traits. */
  type Attributes = bv32

  /** One actor as a single record: the array-of-structs reading of the
      store, used as the reference the parallel sequences must agree with. */
  datatype Row = Row(pd: PositionData, md: MovementData, kind: ActorType, attributes: Attributes)

  datatype Actors = Actors(
    pd: seq<PositionData>,
    md: seq<MovementData>,
    types: seq<ActorType>,
    attributes: seq<Attributes>,
    length: nat)

  /** The stated invariant: all four sequences have the counter's length. */
  predicate Valid(a: Actors) {
    && |a.pd| == a.length
    && |a.md| == a.length
    && |a.types| == a.length
    && |a.attributes| == a.length
  }

  /** A fresh store. The engine never initialises `m_length`; the model
      starts it at zero. The capacity hint has no observable effect. */
  function NewActors(numActors: nat): (r: Actors)
    ensures Valid(r) && r.length == 0
  {
    Actors([], [], [], [], 0)
  }

  /** `Reserve` only pre-allocates capacity. */
  function Reserve(a: Actors, numActors: nat): (r: Actors)
    ensures r == a
  {
    a
  }

  /** `GetLength` reads the counter, which under the invariant is the
      common size of the four sequences. */
  function GetLength(a: Actors): (n: nat)
    ensures Valid(a) ==> n == |a.pd| == |a.md| == |a.types| == |a.attributes|
  {
    a.length
  }

  /** Row `i`, gathered from the four sequences. */
  function RowAt(a: Actors, i: nat): Row
    requires Valid(a) && i < a.length
  {
    Row(a.pd[i], a.md[i], a.types[i], a.attributes[i])
  }

  /** The whole store as a sequence of records. */
  function Rows(a: Actors): (rows: seq<Row>)
    requires Valid(a)
    ensures |rows| == a.length
    ensures forall i :: 0 <= i < a.length ==> rows[i] == RowAt(a, i)
  {
    seq(a.length, i requires 0 <= i < a.length => RowAt(a, i))
  }

  /** Exchange two elements of a sequence. */
  function SeqSwap<T>(s: seq<T>, i: nat, j: nat): (r: seq<T>)
    requires i < |s| && j < |s|
    ensures |r| == |s|
    ensures r[i] == s[j] && r[j] == s[i]
    ensures forall k :: 0 <= k < |s| && k != i && k != j ==> r[k] == s[k]
    ensures multiset(r) == multiset(s)
  {
    s[i := s[j]][j := s[i]]
  }

  /** `Push`: one element appended to each sequence, counter incremented. */
  function Push(a: Actors, pd: PositionData, md: MovementData, at: ActorType, attrib: Attributes): (r: Actors)
    ensures r.length == a.length + 1
    ensures Valid(a) ==> Valid(r) && Rows(r) == Rows(a) + [Row(pd, md, at, attrib)]
  {
    Actors(a.pd + [pd], a.md + [md], a.types + [at], a.attributes + [attrib], a.length + 1)
  }

  /** `Swap`: both indices are checked against the counter before anything
      is touched; on success rows `first` and `second` trade places. */
  function Swap(a: Actors, first: nat, second: nat): (r: Result<Actors, OutOfRangeError>)
    requires Valid(a)
    ensures r.Success? <==> first < a.length && second < a.length
    ensures r.Failure? ==> r.error == OutOfRange
    ensures r.Success? ==>
      && Valid(r.value)
      && r.value.length == a.length
      && RowAt(r.value, first) == RowAt(a, second)
      && RowAt(r.value, second) == RowAt(a, first)
      && (forall k :: 0 <= k < a.length && k != first && k != second ==> RowAt(r.value, k) == RowAt(a, k))
  {
    if first < a.length && second < a.length then
      Success(Actors(
        SeqSwap(a.pd, first, second),
        SeqSwap(a.md, first, second),
        SeqSwap(a.types, first, second),
        SeqSwap(a.attributes, first, second),
        a.length))
    else
      Failure(OutOfRange)
  }

  /** `Pop`: the last element of each sequence removed, counter decremented.
      `pop_back` on an empty vector is undefined, hence the precondition. */
  function Pop(a: Actors): (r: Actors)
    requires Valid(a) && a.length > 0
    ensures Valid(r) && r.length == a.length - 1
    ensures Rows(r) == Rows(a)[..a.length - 1]
  {
    Actors(a.pd[..a.length - 1], a.md[..a.length - 1], a.types[..a.length - 1],
           a.attributes[..a.length - 1], a.length - 1)
  }

  /** A successful swap permutes the rows. */
  lemma SwapPermutes(a: Actors, first: nat, second: nat)
    requires Valid(a) && first < a.length && second < a.length
    ensures Swap(a, first, second).Success?
    ensures Rows(Swap(a, first, second).value) == SeqSwap(Rows(a), first, second)
    ensures multiset(Rows(Swap(a, first, second).value)) == multiset(Rows(a))
  {
    var r := Swap(a, first, second).value;
    assert Rows(r) == SeqSwap(Rows(a), first, second);
  }

  /** Swapping a row with itself changes nothing. */
  lemma SwapSelfIsIdentity(a: Actors, i: nat)
    requires Valid(a) && i < a.length
    ensures Swap(a, i, i) == Success(a)
  {
    assert a.pd[i := a.pd[i]] == a.pd;
    assert a.md[i := a.md[i]] == a.md;
    assert a.types[i := a.types[i]] == a.types;
    assert a.attributes[i := a.attributes[i]] == a.attributes;
  }

  /** Swapping twice restores the store. */
  lemma SwapInvolution(a: Actors, first: nat, second: nat)
    requires Valid(a) && first < a.length && second < a.length
    ensures Swap(Swap(a, first, second).value, first, second) == Success(a)
  {
    SeqSwapTwice(a.pd, first, second);
    SeqSwapTwice(a.md, first, second);
    SeqSwapTwice(a.types, first, second);
    SeqSwapTwice(a.attributes, first, second);
  }

  /** Exchanging the same two elements twice restores the sequence. */
  lemma SeqSwapTwice<T>(s: seq<T>, i: nat, j: nat)
    requires i < |s| && j < |s|
    ensures SeqSwap(SeqSwap(s, i, j), i, j) == s
  {
    var r := SeqSwap(SeqSwap(s, i, j), i, j);
    assert forall k :: 0 <= k < |s| ==> r[k] == s[k];
  }

  /** The primitive store operations, as a caller may issue them. */
  datatype StoreOp = PushOp(row: Row) | SwapOp(first: nat, second: nat) | PopOp

  /** Why a sequence of operations stopped: a swap threw, or a pop met an
      empty store (undefined in the engine; the model stops there). */
  datatype RunError = Thrown(error: OutOfRangeError) | PopOnEmpty

  /** Apply one operation to the parallel sequences. */
  function Step(a: Actors, op: StoreOp): (r: Result<Actors, RunError>)
    requires Valid(a)
    ensures r.Success? ==> Valid(r.value)
  {
    match op
    case PushOp(row) => Success(Push(a, row.pd, row.md, row.kind, row.attributes))
    case SwapOp(i, j) =>
      (match Swap(a, i, j)
       case Success(b) => Success(b)
       case Failure(e) => Failure(Thrown(e)))
    case PopOp => if a.length == 0 then Failure(PopOnEmpty) else Success(Pop(a))
  }

  /** Apply operations in order, stopping at the first failure. Every store
      reached keeps the four sequences at the counter's length. */
  function Run(a: Actors, ops: seq<StoreOp>): (r: Result<Actors, RunError>)
    requires Valid(a)
    ensures r.Success? ==> Valid(r.value)
    decreases |ops|
  {
    if ops == [] then Success(a)
    else
      match Step(a, ops[0])
      case Success(b) => Run(b, ops[1..])
      case Failure(e) => Failure(e)
  }

  /** The same operation on the array-of-structs reference. */
  function StepRows(rows: seq<Row>, op: StoreOp): Result<seq<Row>, RunError> {
    match op
    case PushOp(row) => Success(rows + [row])
    case SwapOp(i, j) =>
      if i < |rows| && j < |rows| then Success(SeqSwap(rows, i, j)) else Failure(Thrown(OutOfRange))
    case PopOp => if |rows| == 0 then Failure(PopOnEmpty) else Success(rows[..|rows| - 1])
  }

  function RunRows(rows: seq<Row>, ops: seq<StoreOp>): Result<seq<Row>, RunError>
    decreases |ops|
  {
    if ops == [] then Success(rows)
    else
      match StepRows(rows, ops[0])
      case Success(b) => RunRows(b, ops[1..])
      case Failure(e) => Failure(e)
  }

  /** One operation on the parallel sequences agrees with the same operation
      on the record sequence. */
  lemma StepMatchesRows(a: Actors, op: StoreOp)
    requires Valid(a)
    ensures Step(a, op).Success? <==> StepRows(Rows(a), op).Success?
    ensures Step(a, op).Success? ==> Rows(Step(a, op).value) == StepRows(Rows(a), op).value
    ensures Step(a, op).Failure? ==> Step(a, op).error == StepRows(Rows(a), op).error
  {
    match op
    case PushOp(row) =>
    case SwapOp(i, j) =>
      if i < a.length && j < a.length {
        SwapPermutes(a, i, j);
      }
    case PopOp =>
  }

  /** Any sequence of push/swap/pop on the parallel sequences behaves exactly
      like the same sequence on a single sequence of records: index `i`
      always names the same actor in all four sequences. */
  lemma {:induction false} RunMatchesRows(a: Actors, ops: seq<StoreOp>)
    requires Valid(a)
    ensures Run(a, ops).Success? <==> RunRows(Rows(a), ops).Success?
    ensures Run(a, ops).Success? ==> Rows(Run(a, ops).value) == RunRows(Rows(a), ops).value
    ensures Run(a, ops).Failure? ==> Run(a, ops).error == RunRows(Rows(a), ops).error
    decreases |ops|
  {
    if ops != [] {
      StepMatchesRows(a, ops[0]);
      match Step(a, ops[0])
      case Success(b) => RunMatchesRows(b, ops[1..]);
      case Failure(e) =>
    }
  }

  /** Removal by swap-and-pop: swapping `index` with the last row and then
      popping leaves the old last row at `index` and every other row where
      it was. */
  lemma SwapPopRemoves(a: Actors, index: nat)
    requires Valid(a) && index < a.length
    ensures Swap(a, index, a.length - 1).Success?
    ensures var r := Pop(Swap(a, index, a.length - 1).value);
      && r.length == a.length - 1
      && (forall k :: 0 <= k < r.length && k != index ==> RowAt(r, k) == RowAt(a, k))
      && (index < r.length ==> RowAt(r, index) == RowAt(a, a.length - 1))
  {
    var s := Swap(a, index, a.length - 1).value;
    var r := Pop(s);
    assert Rows(r) == Rows(s)[..s.length - 1];
    forall k | 0 <= k < r.length
      ensures RowAt(r, k) == RowAt(s, k)
    {
      assert Rows(r)[k] == Rows(s)[k];
    }
  }

  /** `SwapPopRemoves` for any index: an index past the end is rejected by
      the swap. */
  lemma SwapPopRemovesWhenInRange(a: Actors, index: nat)
    requires Valid(a) && a.length > 0
    ensures Swap(a, index, a.length - 1).Success? <==> index < a.length
    ensures index < a.length ==>
      var r := Pop(Swap(a, index, a.length - 1).value);
      && r.length == a.length - 1
      && (forall k :: 0 <= k < r.length && k != index ==> RowAt(r, k) == RowAt(a, k))
      && (index < r.length ==> RowAt(r, index) == RowAt(a, a.length - 1))
  {
    if index < a.length {
      SwapPopRemoves(a, index);
    }
  }
}
