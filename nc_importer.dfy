/**
 * The `.nc` scripted importer: it turns the per-axis ranges into a slice
 * (origin and shape), picks the value conversion, and flattens the nested
 * array the NetCDF library returns into a row-major buffer while tracking
 * the minimum and maximum of the converted values.
 */
module NcImporter {
  import Wrappers
  import opened Extended
  import opened NcAssets
  import NetCdf
  import Arith

  // ---------------------------------------------------------------------
  // Slice bounds

  /** Unity's `Vector2Int`, one per axis: the two ends of the range to import. */
  datatype Vector2Int = Vector2Int(x: int, y: int)

  /** The origin of an axis: the smaller end of its range. */
  function Lower(range: Vector2Int): (lo: int)
    ensures lo <= range.x && lo <= range.y
    ensures lo == range.x || lo == range.y
  {
    if range.x <= range.y then range.x else range.y
  }

  /** The length of an axis: the distance between the two ends of its range. */
  function Extent(range: Vector2Int): (n: int)
    ensures n >= 0
    ensures Lower(range) + n == range.x || Lower(range) + n == range.y
    ensures Lower(range) + n >= range.x && Lower(range) + n >= range.y
  {
    (if range.x >= range.y then range.x else range.y) - Lower(range)
  }

  /** Swapping the two ends of a range selects the same slice. */
  lemma SwappedRangeSameSlice(range: Vector2Int)
    ensures Lower(Vector2Int(range.y, range.x)) == Lower(range)
    ensures Extent(Vector2Int(range.y, range.x)) == Extent(range)
  {
  }

  /** The loop that fills `shape` and `origin` from `shapeRange`. */
  method SliceBounds(shapeRange: seq<Vector2Int>) returns (shape: array<int>, origin: array<int>)
    ensures fresh(shape) && fresh(origin)
    ensures shape.Length == |shapeRange| && origin.Length == |shapeRange|
    ensures forall i :: 0 <= i < |shapeRange| ==> shape[i] == Extent(shapeRange[i]) && origin[i] == Lower(shapeRange[i])
  {
    shape := new int[|shapeRange|];
    origin := new int[|shapeRange|];
    var i := 0;
    while i < |shapeRange|
      invariant 0 <= i <= |shapeRange|
      invariant forall j :: 0 <= j < i ==> shape[j] == Extent(shapeRange[j]) && origin[j] == Lower(shapeRange[j])
    {
      var range := shapeRange[i];
      var lower := Lower(range);
      var upper := if range.x >= range.y then range.x else range.y;
      shape[i] := upper - lower;
      origin[i] := lower;
      i := i + 1;
    }
  }

  // ---------------------------------------------------------------------
  // Conversion

  /**
   * The importer setting that chooses the conversion. A C# enum field can hold
   * a value no member declares; `Undeclared` stands for those.
   */
  datatype Conversion = None | Custom | KelvinToCelsius | Undeclared(value: int)

  /** A converter: `NetCDF.KelvinToCelsius` or the importer's `CustomConversion`. */
  datatype Converter = KelvinConverter | AffineConverter(factor: real, base: real)

  function Apply(c: Converter, v: real): real {
    match c
    case KelvinConverter => NetCdf.KelvinToCelsius(v)
    case AffineConverter(factor, base) => CustomConversion(factor, base, v)
  }

  /** `CustomConversion`: the affine map with the importer's factor and base. */
  function CustomConversion(factor: real, base: real, v: real): (r: real)
    ensures factor == 1.0 && base == 0.0 ==> r == v
    ensures factor == 0.0 ==> r == base
  {
    v * factor + base
  }

  /** With a positive factor the affine map is strictly increasing. */
  lemma CustomConversionStrictlyIncreasing(factor: real, base: real, a: real, b: real)
    requires factor > 0.0 && a < b
    ensures CustomConversion(factor, base, a) < CustomConversion(factor, base, b)
  {
    var d := b - a;
    assert d > 0.0;
    assert d * factor > 0.0;
    assert b * factor == a * factor + d * factor;
    assert CustomConversion(factor, base, b) == CustomConversion(factor, base, a) + d * factor;
  }

  /** With a non-zero factor the custom conversion is undone by subtracting the base and dividing by the factor. */
  lemma CustomConversionInvertible(factor: real, base: real, v: real)
    requires factor != 0.0
    ensures (CustomConversion(factor, base, v) - base) / factor == v
  {
    assert CustomConversion(factor, base, v) - base == v * factor;
  }

  /** The `switch` that picks the converter; `None` and an undeclared value leave it null. */
  function SelectConverter(conversion: Conversion, customBase: real, customFactor: real): (r: Wrappers.Option<Converter>)
    ensures (conversion.None? || conversion.Undeclared?) <==> r.None?
    ensures conversion == KelvinToCelsius ==> r.Some? && forall v :: Apply(r.value, v) == NetCdf.KelvinToCelsius(v)
    ensures conversion == Custom ==> r.Some? && forall v :: Apply(r.value, v) == v * customFactor + customBase
  {
    match conversion
    case KelvinToCelsius => Wrappers.Some(KelvinConverter)
    case Custom => Wrappers.Some(AffineConverter(customFactor, customBase))
    case None => Wrappers.None
    case Undeclared(_) => Wrappers.None
  }

  /** What `Flatten` stores for one source value: converted when a converter is set. */
  function ConvertValue(conv: Wrappers.Option<Converter>, v: real): real {
    if conv.Some? then Apply(conv.value, v) else v
  }

  /** The converted values, in order. */
  function ConvertAll(conv: Wrappers.Option<Converter>, s: seq<real>): (r: seq<real>)
    ensures |r| == |s|
    ensures forall k :: 0 <= k < |s| ==> r[k] == ConvertValue(conv, s[k])
  {
    if s == [] then [] else ConvertAll(conv, s[..|s| - 1]) + [ConvertValue(conv, s[|s| - 1])]
  }

  // ---------------------------------------------------------------------
  // Running extremes

  /** The running minimum: starts at +infinity, lowered by each value below it. */
  function RunningMin(s: seq<real>): ExtReal {
    if s == [] then PosInf
    else
      var m := RunningMin(s[..|s| - 1]);
      if Less(Finite(s[|s| - 1]), m) then Finite(s[|s| - 1]) else m
  }

  /** The running maximum: starts at -infinity, raised by each value above it. */
  function RunningMax(s: seq<real>): ExtReal {
    if s == [] then NegInf
    else
      var m := RunningMax(s[..|s| - 1]);
      if Less(m, Finite(s[|s| - 1])) then Finite(s[|s| - 1]) else m
  }

  /** The running minimum is a lower bound of the values, attained by one of them; +inf when there are none. */
  lemma {:induction false} RunningMinIsMinimum(s: seq<real>)
    ensures s == [] <==> RunningMin(s) == PosInf
    ensures forall k :: 0 <= k < |s| ==> LessEq(RunningMin(s), Finite(s[k]))
    ensures s != [] ==> exists k :: 0 <= k < |s| && RunningMin(s) == Finite(s[k])
  {
    if s != [] {
      var p := s[..|s| - 1];
      RunningMinIsMinimum(p);
      assert forall k :: 0 <= k < |p| ==> s[k] == p[k];
      if p != [] {
        var j :| 0 <= j < |p| && RunningMin(p) == Finite(p[j]);
        assert RunningMin(s) == Finite(s[j]) || RunningMin(s) == Finite(s[|s| - 1]);
      }
    }
  }

  /** The running maximum is an upper bound of the values, attained by one of them; -inf when there are none. */
  lemma {:induction false} RunningMaxIsMaximum(s: seq<real>)
    ensures s == [] <==> RunningMax(s) == NegInf
    ensures forall k :: 0 <= k < |s| ==> LessEq(Finite(s[k]), RunningMax(s))
    ensures s != [] ==> exists k :: 0 <= k < |s| && RunningMax(s) == Finite(s[k])
  {
    if s != [] {
      var p := s[..|s| - 1];
      RunningMaxIsMaximum(p);
      assert forall k :: 0 <= k < |p| ==> s[k] == p[k];
      if p != [] {
        var j :| 0 <= j < |p| && RunningMax(p) == Finite(p[j]);
        assert RunningMax(s) == Finite(s[j]) || RunningMax(s) == Finite(s[|s| - 1]);
      }
    }
  }

  /** A strictly increasing converter: Kelvin to Celsius, or an affine map with a positive factor. */
  predicate StrictlyIncreasing(c: Converter) {
    c.KelvinConverter? || c.factor > 0.0
  }

  function ApplyExt(c: Converter, e: ExtReal): ExtReal {
    if e.Finite? then Finite(Apply(c, e.value)) else e
  }

  lemma ApplyPreservesOrder(c: Converter, a: real, b: real)
    requires StrictlyIncreasing(c)
    ensures a < b <==> Apply(c, a) < Apply(c, b)
  {
    if c.AffineConverter? {
      if a < b {
        CustomConversionStrictlyIncreasing(c.factor, c.base, a, b);
      } else if b < a {
        CustomConversionStrictlyIncreasing(c.factor, c.base, b, a);
      }
    }
  }

  /** Converting with an increasing map sends the source minimum to the converted minimum. */
  lemma {:induction false} ConvertedMinimum(c: Converter, s: seq<real>)
    requires StrictlyIncreasing(c)
    ensures RunningMin(ConvertAll(Wrappers.Some(c), s)) == ApplyExt(c, RunningMin(s))
  {
    if s != [] {
      var p := s[..|s| - 1];
      var t := ConvertAll(Wrappers.Some(c), s);
      assert t[..|t| - 1] == ConvertAll(Wrappers.Some(c), p);
      ConvertedMinimum(c, p);
      var m := RunningMin(p);
      if m.Finite? {
        ApplyPreservesOrder(c, s[|s| - 1], m.value);
      }
    }
  }

  /** Converting with an increasing map sends the source maximum to the converted maximum. */
  lemma {:induction false} ConvertedMaximum(c: Converter, s: seq<real>)
    requires StrictlyIncreasing(c)
    ensures RunningMax(ConvertAll(Wrappers.Some(c), s)) == ApplyExt(c, RunningMax(s))
  {
    if s != [] {
      var p := s[..|s| - 1];
      var t := ConvertAll(Wrappers.Some(c), s);
      assert t[..|t| - 1] == ConvertAll(Wrappers.Some(c), p);
      ConvertedMaximum(c, p);
      var m := RunningMax(p);
      if m.Finite? {
        ApplyPreservesOrder(c, m.value, s[|s| - 1]);
      }
    }
  }

  // ---------------------------------------------------------------------
  // Nested source data and its flattening

  /** The data `GetData` returns: arrays nested to any depth, with float leaves. */
  datatype Nested = Leaf(value: real) | Node(children: seq<Nested>)

  /** The leaves of one element, depth first, left to right. */
  function Leaves(t: Nested): seq<real>
    decreases t
  {
    match t
    case Leaf(v) => [v]
    case Node(cs) => LeavesOf(cs)
  }

  /** The leaves of a sequence of elements, in order. */
  function LeavesOf(ts: seq<Nested>): seq<real>
    decreases ts
  {
    if ts == [] then [] else Leaves(ts[0]) + LeavesOf(ts[1..])
  }

  /** The number of elements (arrays and leaves) in one element, itself included. */
  function Size(t: Nested): nat
    decreases t
  {
    match t
    case Leaf(_) => 1
    case Node(cs) => 1 + SizeOf(cs)
  }

  function SizeOf(ts: seq<Nested>): nat
    decreases ts
  {
    if ts == [] then 0 else Size(ts[0]) + SizeOf(ts[1..])
  }

  /**
   * The leaves still to be visited through the saved enumerators, each given
   * by the elements it has not yet returned; the top of the stack is the last.
   */
  function PendingOf(stack: seq<seq<Nested>>): seq<real> {
    if stack == [] then [] else LeavesOf(stack[|stack| - 1]) + PendingOf(stack[..|stack| - 1])
  }

  function StackSize(stack: seq<seq<Nested>>): nat {
    if stack == [] then 0 else SizeOf(stack[|stack| - 1]) + StackSize(stack[..|stack| - 1])
  }

  /** The leaves the walk has still to visit: the current enumerator's, then the saved ones'. */
  function Rest(enumerator: seq<Nested>, stack: seq<seq<Nested>>): seq<real> {
    LeavesOf(enumerator) + PendingOf(stack)
  }

  /** Moving past a leaf takes it off the front of what is still to be visited. */
  lemma RestAfterLeaf(e: seq<Nested>, stack: seq<seq<Nested>>)
    requires e != [] && e[0].Leaf?
    ensures Rest(e, stack) == [e[0].value] + Rest(e[1..], stack)
    ensures SizeOf(e) == 1 + SizeOf(e[1..])
  {
    assert LeavesOf(e) == [e[0].value] + LeavesOf(e[1..]);
    SeqAssoc([e[0].value], LeavesOf(e[1..]), PendingOf(stack));
  }

  lemma SeqAssoc<T>(a: seq<T>, b: seq<T>, c: seq<T>)
    ensures (a + b) + c == a + (b + c)
  {
  }

  /** Descending into an array saves the enumerator and visits the same leaves in the same order. */
  lemma RestAfterDescent(e: seq<Nested>, stack: seq<seq<Nested>>)
    requires e != [] && e[0].Node?
    ensures Rest(e, stack) == Rest(e[0].children, stack + [e[1..]])
    ensures SizeOf(e) == 1 + SizeOf(e[0].children) + SizeOf(e[1..])
    ensures StackSize(stack + [e[1..]]) == SizeOf(e[1..]) + StackSize(stack)
  {
    assert (stack + [e[1..]])[..|stack|] == stack;
    assert LeavesOf(e) == LeavesOf(e[0].children) + LeavesOf(e[1..]);
    SeqAssoc(LeavesOf(e[0].children), LeavesOf(e[1..]), PendingOf(stack));
  }

  /** Popping an enumerator off the stack leaves the same leaves to visit. */
  lemma RestAfterPop(stack: seq<seq<Nested>>)
    requires stack != []
    ensures PendingOf(stack) == Rest(stack[|stack| - 1], stack[..|stack| - 1])
    ensures StackSize(stack) == SizeOf(stack[|stack| - 1]) + StackSize(stack[..|stack| - 1])
  {
  }

  lemma RestExhausted(stack: seq<seq<Nested>>)
    ensures Rest([], stack) == PendingOf(stack)
  {
  }

  lemma ConsumeLeaf(consumed: seq<real>, v: real, rest: seq<real>, all: seq<real>)
    requires consumed + ([v] + rest) == all
    ensures (consumed + [v]) + rest == all
  {
  }

  lemma AppendValue(conv: Wrappers.Option<Converter>, s: seq<real>, v: real)
    ensures var t := ConvertAll(conv, s + [v]);
            var x := ConvertValue(conv, v);
            && t == ConvertAll(conv, s) + [x]
            && RunningMin(t) == (if Less(Finite(x), RunningMin(ConvertAll(conv, s))) then Finite(x) else RunningMin(ConvertAll(conv, s)))
            && RunningMax(t) == (if Less(RunningMax(ConvertAll(conv, s)), Finite(x)) then Finite(x) else RunningMax(ConvertAll(conv, s)))
  {
    assert (s + [v])[..|s|] == s;
    var t := ConvertAll(conv, s + [v]);
    assert t[..|t| - 1] == ConvertAll(conv, s);
  }

  /** The buffer `Flatten` returns: the converted leaves, then the zeros `new float[n]` left untouched. */
  function Flattened(conv: Wrappers.Option<Converter>, leaves: seq<real>, n: int): (r: seq<real>)
    requires |leaves| <= n
    ensures |r| == n
    ensures forall k :: 0 <= k < |leaves| ==> r[k] == ConvertValue(conv, leaves[k])
    ensures forall k :: |leaves| <= k < n ==> r[k] == 0.0
  {
    ConvertAll(conv, leaves) + seq(n - |leaves|, _ => 0.0)
  }

  /** The exceptions `Flatten` and its caller raise. */
  datatype FlattenError =
    | EmptyShape         // `Aggregate` on an empty sequence (InvalidOperationException)
    | NegativeLength     // `new float[n]` with n < 0 (OverflowException)
    | TooManyLeaves      // `arr[idx++]` past the end (IndexOutOfRangeException)

  /**
   * The walk's state after `consumed` leaves: their converted values fill the
   * first `idx` slots, the rest still hold zero, and the extremes are the
   * running extremes of the converted values.
   */
  ghost predicate Stored(arr: array<real>, conv: Wrappers.Option<Converter>, idx: int, consumed: seq<real>,
                         minVal: ExtReal, maxVal: ExtReal)
    reads arr
  {
    && 0 <= idx == |consumed| <= arr.Length
    && (forall k :: 0 <= k < idx ==> arr[k] == ConvertValue(conv, consumed[k]))
    && (forall k :: idx <= k < arr.Length ==> arr[k] == 0.0)
    && minVal == RunningMin(ConvertAll(conv, consumed))
    && maxVal == RunningMax(ConvertAll(conv, consumed))
  }

  /**
   * One leaf (the `else` branch of the walk): convert, update the extremes,
   * then store at the next slot, which fails when the buffer is already full.
   */
  method VisitLeaf(arr: array<real>, conv: Wrappers.Option<Converter>, idx: int, ghost consumed: seq<real>,
                   minVal: ExtReal, maxVal: ExtReal, v: real)
    returns (ok: bool, idx': int, minVal': ExtReal, maxVal': ExtReal)
    requires Stored(arr, conv, idx, consumed, minVal, maxVal)
    modifies arr
    ensures ok <==> idx < arr.Length
    ensures ok ==> idx' == idx + 1 && Stored(arr, conv, idx', consumed + [v], minVal', maxVal')
  {
    var val := ConvertValue(conv, v);
    AppendValue(conv, consumed, v);
    minVal', maxVal' := minVal, maxVal;
    if Less(Finite(val), minVal') {
      minVal' := Finite(val);
    }
    if Less(maxVal', Finite(val)) {
      maxVal' := Finite(val);
    }
    if idx >= arr.Length {
      return false, idx, minVal', maxVal';
    }
    arr[idx] := val;
    idx' := idx + 1;
    ok := true;
    ghost var now := consumed + [v];
    forall k | 0 <= k < idx'
      ensures arr[k] == ConvertValue(conv, now[k])
    {
      if k < idx {
        assert now[k] == consumed[k];
      }
    }
  }

  /**
   * The inner loop of `Flatten` for one popped enumerator: descend into
   * arrays (saving the enumerator), visit leaves, until the enumerator is
   * exhausted. It fails when a leaf finds the buffer full.
   */
  method RunEnumerator(arr: array<real>, conv: Wrappers.Option<Converter>, enumerator: seq<Nested>,
                       stack: seq<seq<Nested>>, idx: int, ghost consumed: seq<real>,
                       minVal: ExtReal, maxVal: ExtReal, ghost all: seq<real>)
    returns (ok: bool, stack': seq<seq<Nested>>, idx': int, ghost consumed': seq<real>,
             minVal': ExtReal, maxVal': ExtReal, ghost steps: nat)
    requires Stored(arr, conv, idx, consumed, minVal, maxVal)
    requires consumed + Rest(enumerator, stack) == all
    modifies arr
    ensures ok ==> Stored(arr, conv, idx', consumed', minVal', maxVal')
    ensures ok ==> consumed' + PendingOf(stack') == all
    ensures ok ==> StackSize(stack') + steps == StackSize(stack) + SizeOf(enumerator)
    ensures ok && steps == 0 ==> stack' == stack
    ensures !ok ==> |all| > arr.Length
  {
    var e := enumerator;
    stack', idx', consumed', minVal', maxVal' := stack, idx, consumed, minVal, maxVal;
    steps := 0;
    while |e| > 0
      invariant Stored(arr, conv, idx', consumed', minVal', maxVal')
      invariant consumed' + Rest(e, stack') == all
      invariant StackSize(stack') + SizeOf(e) + steps == StackSize(stack) + SizeOf(enumerator)
      invariant steps == 0 ==> stack' == stack
      decreases StackSize(stack') + SizeOf(e)
    {
      var current := e[0];
      match current {
        case Node(children) =>
          RestAfterDescent(e, stack');
          stack' := stack' + [e[1..]];
          e := children;
        case Leaf(v) =>
          RestAfterLeaf(e, stack');
          e := e[1..];
          var stored;
          stored, idx', minVal', maxVal' := VisitLeaf(arr, conv, idx', consumed', minVal', maxVal', v);
          if !stored {
            return false, stack', idx', consumed', minVal', maxVal', steps;
          }
          ConsumeLeaf(consumed', v, Rest(e, stack'), all);
          consumed' := consumed' + [v];
      }
      steps := steps + 1;
    }
    RestExhausted(stack');
    ok := true;
  }

  /**
   * `Flatten`: walks the nested data with an explicit stack of enumerators,
   * stores each converted leaf at the next position and keeps the running
   * extremes. There is no shape check: surplus leaves overrun the buffer,
   * missing leaves leave zeros behind.
   */
  method Flatten(data: seq<Nested>, shape: seq<int>, conv: Wrappers.Option<Converter>)
    returns (r: Wrappers.Result<array<real>, FlattenError>, minVal: ExtReal, maxVal: ExtReal)
    ensures r.Failure? <==> |shape| == 0 || Product(shape) < 0 || |LeavesOf(data)| > Product(shape)
    ensures r.Failure? ==> r.error == (if |shape| == 0 then EmptyShape
                                      else if Product(shape) < 0 then NegativeLength
                                      else TooManyLeaves)
    ensures r.Success? ==> fresh(r.value)
    ensures r.Success? ==> r.value[..] == Flattened(conv, LeavesOf(data), Product(shape))
    ensures r.Success? ==> minVal == RunningMin(ConvertAll(conv, LeavesOf(data)))
    ensures r.Success? ==> maxVal == RunningMax(ConvertAll(conv, LeavesOf(data)))
  {
    minVal, maxVal := PosInf, NegInf;
    if |shape| == 0 {
      return Wrappers.Failure(EmptyShape), minVal, maxVal;
    }
    var flatLength := Product(shape);
    if flatLength < 0 {
      return Wrappers.Failure(NegativeLength), minVal, maxVal;
    }
    var arr := new real[flatLength](_ => 0.0);
    var stack: seq<seq<Nested>> := [data];
    var idx := 0;
    ghost var consumed: seq<real> := [];
    assert PendingOf(stack) == LeavesOf(data) by {
      assert stack[..0] == [];
    }

    while |stack| > 0
      invariant Stored(arr, conv, idx, consumed, minVal, maxVal)
      invariant consumed + PendingOf(stack) == LeavesOf(data)
      decreases StackSize(stack), |stack|
    {
      RestAfterPop(stack);
      var enumerator := stack[|stack| - 1];
      stack := stack[..|stack| - 1];
      var ok;
      ghost var steps;
      ok, stack, idx, consumed, minVal, maxVal, steps :=
        RunEnumerator(arr, conv, enumerator, stack, idx, consumed, minVal, maxVal, LeavesOf(data));
      if !ok {
        return Wrappers.Failure(TooManyLeaves), minVal, maxVal;
      }
    }
    assert consumed == LeavesOf(data);
    assert arr[..] == Flattened(conv, consumed, flatLength);
    r := Wrappers.Success(arr);
  }

  /** After a successful `Flatten`, the stored extremes bound every stored leaf and are attained when there is one. */
  lemma FlattenedExtremes(conv: Wrappers.Option<Converter>, leaves: seq<real>, n: int)
    requires |leaves| <= n
    ensures var out := Flattened(conv, leaves, n);
            var lo, hi := RunningMin(ConvertAll(conv, leaves)), RunningMax(ConvertAll(conv, leaves));
            && (forall k :: 0 <= k < |leaves| ==> LessEq(lo, Finite(out[k])) && LessEq(Finite(out[k]), hi))
            && (leaves != [] ==> exists k :: 0 <= k < |leaves| && lo == Finite(out[k]))
            && (leaves != [] ==> exists k :: 0 <= k < |leaves| && hi == Finite(out[k]))
            && (leaves == [] ==> lo == PosInf && hi == NegInf && Less(hi, lo))
  {
    var out := ConvertAll(conv, leaves);
    RunningMinIsMinimum(out);
    RunningMaxIsMaximum(out);
    if leaves != [] {
      var i :| 0 <= i < |out| && RunningMin(out) == Finite(out[i]);
      var j :| 0 <= j < |out| && RunningMax(out) == Finite(out[j]);
      assert Flattened(conv, leaves, n)[i] == out[i] && Flattened(conv, leaves, n)[j] == out[j];
    }
  }

  /** A leaf lands in the cell whose row-major position is its place in the walk, and every cell reads its own leaf. */
  lemma ImportedLayout(conv: Wrappers.Option<Converter>, shape: seq<int>, leaves: seq<real>)
    requires |shape| >= 1 && PositiveShape(shape) && |leaves| == Product(shape)
    ensures forall k :: 0 <= k < |leaves| ==>
              InRange(shape, Unravel(shape, k)) && FlatIndex(shape, Unravel(shape, k)) == k &&
              Flattened(conv, leaves, |leaves|)[FlatIndex(shape, Unravel(shape, k))] == ConvertValue(conv, leaves[k])
    ensures forall idx :: |idx| == |shape| && InRange(shape, idx) ==>
              Addressable(shape, idx) && 0 <= FlatIndex(shape, idx) < |leaves| &&
              Flattened(conv, leaves, |leaves|)[FlatIndex(shape, idx)] == ConvertValue(conv, leaves[FlatIndex(shape, idx)])
  {
    forall k | 0 <= k < |leaves|
      ensures InRange(shape, Unravel(shape, k)) && FlatIndex(shape, Unravel(shape, k)) == k
    {
      UnravelRoundTrip(shape, k);
    }
    forall idx | |idx| == |shape| && InRange(shape, idx)
      ensures Addressable(shape, idx) && 0 <= FlatIndex(shape, idx) < |leaves|
    {
      InRangeReadIsInBounds(shape, |leaves|, idx);
    }
  }

  // ---------------------------------------------------------------------
  // The import

  /** `VariableInfo`: a variable of the data set with its shape. */
  datatype VariableInfo = VariableInfo(name: string, shape: seq<int>)

  /** The origins `SliceBounds` computes, as a sequence. */
  function Origins(shapeRange: seq<Vector2Int>): (o: seq<int>)
    ensures |o| == |shapeRange| && forall i :: 0 <= i < |shapeRange| ==> o[i] == Lower(shapeRange[i])
  {
    seq(|shapeRange|, i requires 0 <= i < |shapeRange| => Lower(shapeRange[i]))
  }

  /** The shape `SliceBounds` computes, as a sequence. */
  function Extents(shapeRange: seq<Vector2Int>): (e: seq<int>)
    ensures |e| == |shapeRange| && forall i :: 0 <= i < |shapeRange| ==> e[i] == Extent(shapeRange[i])
  {
    seq(|shapeRange|, i requires 0 <= i < |shapeRange| => Extent(shapeRange[i]))
  }

  /** A sliced shape never has a negative element count, so `new float[n]` cannot fail on it. */
  lemma {:induction false} ProductNonNegative(shape: seq<int>)
    requires forall i :: 0 <= i < |shape| ==> shape[i] >= 0
    ensures Product(shape) >= 0
    decreases |shape|
  {
    if shape != [] {
      var init := shape[..|shape| - 1];
      ProductNonNegative(init);
      Arith.MulMonotone(0, Product(init), shape[|shape| - 1]);
    }
  }

  /** The exceptions that abort an import. */
  datatype ImportError =
    | VariableOutOfRange        // `availableVariables[selectedVariable]` (ArgumentOutOfRangeException)
    | SliceFailed(why: FlattenError)

  /** What a successful slice read produces: the flat buffer and its extremes. */
  datatype Slice = Slice(data: seq<real>, minValue: ExtReal, maxValue: ExtReal)

  /**
   * The outcome of reading variable `name` over the ranges: no ranges is
   * `Aggregate`'s exception, more leaves than slots the overrun of the
   * buffer; otherwise the flattened, converted leaves and their extremes.
   */
  function ExpectedSlice(name: string, shapeRange: seq<Vector2Int>, conv: Wrappers.Option<Converter>,
                         getData: (string, seq<int>, seq<int>) -> seq<Nested>): Wrappers.Result<Slice, FlattenError>
  {
    var shape := Extents(shapeRange);
    var leaves := LeavesOf(getData(name, Origins(shapeRange), shape));
    if |shape| == 0 then Wrappers.Failure(EmptyShape)
    else if |leaves| > Product(shape) then Wrappers.Failure(TooManyLeaves)
    else Wrappers.Success(Slice(Flattened(conv, leaves, Product(shape)),
                                RunningMin(ConvertAll(conv, leaves)), RunningMax(ConvertAll(conv, leaves))))
  }

  /**
   * The selected-variable part of `OnImportAsset` before the asset is
   * written: the slice bounds, `GetData` on them, and `Flatten`.
   */
  method ReadSlice(name: string, shapeRange: seq<Vector2Int>, conv: Wrappers.Option<Converter>,
                   getData: (string, seq<int>, seq<int>) -> seq<Nested>)
    returns (r: Wrappers.Result<Slice, FlattenError>, shape: seq<int>)
    ensures shape == Extents(shapeRange)
    ensures r == ExpectedSlice(name, shapeRange, conv, getData)
  {
    var shapeArr, originArr := SliceBounds(shapeRange);
    shape := shapeArr[..];
    assert shape == Extents(shapeRange);
    assert originArr[..] == Origins(shapeRange);
    var dataArr := getData(name, originArr[..], shape);
    ProductNonNegative(shape);
    var flatData, min, max := Flatten(dataArr, shape, conv);
    if flatData.Failure? {
      return Wrappers.Failure(flatData.error), shape;
    }
    r := Wrappers.Success(Slice(flatData.value[..], min, max));
  }

  /** The scripted importer's serialized settings and what it reports about the file. */
  class NCImporter {
    var conversion: Conversion
    var customConversionBase: real
    var customConversionFactor: real
    var availableVariables: seq<VariableInfo>
    var selectedVariable: int
    var shapeRange: seq<Vector2Int>

    /** An importer with the given settings; no file has been read yet. */
    constructor (conversion: Conversion, customConversionBase: real, customConversionFactor: real,
                 selectedVariable: int, shapeRange: seq<Vector2Int>)
      ensures this.conversion == conversion
      ensures this.customConversionBase == customConversionBase
      ensures this.customConversionFactor == customConversionFactor
      ensures this.selectedVariable == selectedVariable && this.shapeRange == shapeRange
      ensures availableVariables == []
    {
      this.conversion := conversion;
      this.customConversionBase := customConversionBase;
      this.customConversionFactor := customConversionFactor;
      this.selectedVariable := selectedVariable;
      this.shapeRange := shapeRange;
      availableVariables := [];
    }

    /** The converter the current settings select. */
    function Converter(): Wrappers.Option<Converter>
      reads this
    {
      SelectConverter(conversion, customConversionBase, customConversionFactor)
    }

    /**
     * `OnImportAsset`. `variables` are the data set's variables and
     * `getData(name, origin, shape)` is `Variable.GetData`. With no variable
     * selected the asset stays blank; otherwise it holds the selected
     * variable's slice, flattened and converted, with its extremes.
     */
    method OnImportAsset(variables: seq<VariableInfo>, getData: (string, seq<int>, seq<int>) -> seq<Nested>)
      returns (r: Wrappers.Result<NCAsset, ImportError>)
      modifies this`availableVariables
      ensures availableVariables == variables
      ensures r.Success? ==> fresh(r.value)
      ensures selectedVariable == -1 ==>
                && r.Success? && r.value.variable == [] && r.value.shape == [] && r.value.data == []
                && r.value.minValue == Finite(0.0) && r.value.maxValue == Finite(0.0)
      ensures selectedVariable != -1 && !(0 <= selectedVariable < |variables|) ==>
                r.Failure? && r.error == VariableOutOfRange
      ensures 0 <= selectedVariable < |variables| ==>
                var expected := ExpectedSlice(variables[selectedVariable].name, shapeRange, Converter(), getData);
                && (r.Failure? <==> expected.Failure?)
                && (r.Failure? ==> r.error == SliceFailed(expected.error))
                && (r.Success? ==>
                      && r.value.variable == variables[selectedVariable].name
                      && r.value.shape == Extents(shapeRange)
                      && r.value.data == expected.value.data
                      && r.value.minValue == expected.value.minValue
                      && r.value.maxValue == expected.value.maxValue)
    {
      availableVariables := variables;
      var asset := new NCAsset();
      if selectedVariable != -1 {
        if !(0 <= selectedVariable < |availableVariables|) {
          return Wrappers.Failure(VariableOutOfRange);
        }
        var varInfo := availableVariables[selectedVariable];
        var converter := SelectConverter(conversion, customConversionBase, customConversionFactor);
        var slice, shape := ReadSlice(varInfo.name, shapeRange, converter, getData);
        if slice.Failure? {
          return Wrappers.Failure(SliceFailed(slice.error));
        }
        asset.variable := varInfo.name;
        asset.shape := shape;
        asset.data := slice.value.data;
        asset.minValue := slice.value.minValue;
        asset.maxValue := slice.value.maxValue;
      }
      r := Wrappers.Success(asset);
    }
  }
}
