/**
 * The operations of `OptionalValue`: each checks for the absent state and either
 * short-circuits to null (the pointer still advancing for navigation) or delegates to the
 * wrapped, non-null `Value`.
 */
module OptionalValues {
  import opened Wrappers
  import opened Nodes
  import opened Exceptions
  import opened Values

  /** `isNull`: whether the state is absent. */
  predicate IsNull(o: OptionalValue)
  {
    o.value.None?
  }

  /** The wrapped value of a present `OptionalValue`. */
  function Present(o: OptionalValue): (v: Value)
    requires !IsNull(o)
    ensures !Values.IsNull(v)
  {
    o.value.value
  }

  /** An absent `OptionalValue` at `pointer`. */
  function Absent(pointer: string): (o: OptionalValue)
    ensures IsNull(o) && o.pointer == pointer
  {
    MakeOptional(None, pointer)
  }

  /** Constructed from PHP null or from a null `Value`, the state is absent, and only then. */
  lemma ConstructorNormalises(value: Option<Value>, pointer: string)
    ensures IsNull(MakeOptional(value, pointer)) <==> value.None? || Values.IsNull(value.value)
    ensures !IsNull(MakeOptional(value, pointer)) ==> Present(MakeOptional(value, pointer)) == value.value
  {
  }

  // ---------------------------------------------------------------------------------------------
  // Navigation.

  /** `¿field`: absent at `.name` when absent, the wrapped value's `¿field` otherwise. */
  function MaybeField(o: OptionalValue, name: string): (r: Result<OptionalValue>)
    ensures IsNull(o) ==> r == Ok(Absent(FieldPointer(o.pointer, name)))
    ensures !IsNull(o) ==> r == Values.MaybeField(Present(o), name)
  {
    if IsNull(o) then Ok(Absent(FieldPointer(o.pointer, name))) else Values.MaybeField(Present(o), name)
  }

  /** `¿nth`: absent at `[n]` when absent, the wrapped value's `¿nth` otherwise. */
  function MaybeNth(o: OptionalValue, n: int): (r: Result<OptionalValue>)
    ensures IsNull(o) ==> r == Ok(Absent(IndexPointer(o.pointer, n)))
    ensures !IsNull(o) ==> r == Values.MaybeNth(Present(o), n)
  {
    if IsNull(o) then Ok(Absent(IndexPointer(o.pointer, n))) else Values.MaybeNth(Present(o), n)
  }

  /** A chain of `¿field` and `¿nth` calls. */
  function Navigate(o: OptionalValue, steps: seq<Step>): Result<OptionalValue>
    decreases |steps|
  {
    if steps == [] then Ok(o)
    else
      var next := match steps[0] case Key(k) => MaybeField(o, k) case Index(n) => MaybeNth(o, n);
      match next
      case Ok(w) => Navigate(w, steps[1..])
      case Fail(e) => Fail(e)
      case Raise(e) => Raise(e)
  }

  /** From the absent state any chain succeeds, stays absent, and spells its steps into the pointer. */
  lemma {:induction false} AbsentChain(o: OptionalValue, steps: seq<Step>)
    requires IsNull(o)
    ensures Navigate(o, steps) == Ok(Absent(PointerAfter(o.pointer, steps)))
    decreases |steps|
  {
    if steps != [] {
      match steps[0]
      case Key(k) => AbsentChain(Absent(FieldPointer(o.pointer, k)), steps[1..]);
      case Index(n) => AbsentChain(Absent(IndexPointer(o.pointer, n)), steps[1..]);
    }
  }

  /** The pointer of a present `OptionalValue` is the pointer of the value it wraps. */
  predicate Coherent(o: OptionalValue)
  {
    !IsNull(o) ==> Present(o).pointer == o.pointer
  }

  /**
   * Every `OptionalValue` that `¿field` or `¿nth` builds is coherent and sits at the extended
   * pointer, whichever state it is in, when started from a coherent one.
   */
  lemma StepKeepsCoherence(o: OptionalValue, s: Step)
    requires Coherent(o)
    ensures var r := match s case Key(k) => MaybeField(o, k) case Index(n) => MaybeNth(o, n);
            var p := match s case Key(k) => FieldPointer(o.pointer, k) case Index(n) => IndexPointer(o.pointer, n);
            r.Ok? ==> Coherent(r.value) && r.value.pointer == p
  {
  }

  /** A successful chain from a coherent `OptionalValue` ends at the pointer its steps spell out. */
  lemma {:induction false} ChainPointer(o: OptionalValue, steps: seq<Step>)
    requires Coherent(o)
    ensures Navigate(o, steps).Ok? ==>
              Coherent(Navigate(o, steps).value) &&
              Navigate(o, steps).value.pointer == PointerAfter(o.pointer, steps)
    decreases |steps|
  {
    if steps != [] {
      StepKeepsCoherence(o, steps[0]);
      match steps[0]
      case Key(k) =>
        if MaybeField(o, k).Ok? {
          ChainPointer(MaybeField(o, k).value, steps[1..]);
        }
      case Index(n) =>
        if MaybeNth(o, n).Ok? {
          ChainPointer(MaybeNth(o, n).value, steps[1..]);
        }
    }
  }

  // ---------------------------------------------------------------------------------------------
  // Predicates.

  predicate IsObject(o: OptionalValue) { !IsNull(o) && Values.IsObject(Present(o)) }
  predicate IsArray(o: OptionalValue) { !IsNull(o) && Values.IsArray(Present(o)) }
  predicate IsNumber(o: OptionalValue) { !IsNull(o) && Values.IsNumber(Present(o)) }
  predicate IsString(o: OptionalValue) { !IsNull(o) && Values.IsString(Present(o)) }
  predicate IsBool(o: OptionalValue) { !IsNull(o) && Values.IsBool(Present(o)) }
  predicate IsTrue(o: OptionalValue) { !IsNull(o) && Values.IsTrue(Present(o)) }
  predicate IsFalse(o: OptionalValue) { !IsNull(o) && Values.IsFalse(Present(o)) }

  /**
   * Exactly one of the type predicates holds on a present `OptionalValue` with a JSON node,
   * and none on an absent one.
   */
  lemma PredicatesPartition(o: OptionalValue)
    ensures IsNull(o) ==> !IsObject(o) && !IsArray(o) && !IsNumber(o) && !IsString(o) && !IsBool(o)
    ensures !IsNull(o) && !Present(o).node.Unknown? ==>
              (IsObject(o) || IsArray(o) || IsNumber(o) || IsString(o) || IsBool(o))
    ensures IsBool(o) <==> IsTrue(o) || IsFalse(o)
  {
  }

  // ---------------------------------------------------------------------------------------------
  // Terminals.

  /**
   * `¿apply`: null when absent, the callback's outcome on the wrapped value otherwise. The `¿`
   * terminals are this with the strict conversion as the callback.
   */
  function MaybeApply<T>(o: OptionalValue, f: Value -> Result<T>): (r: Result<Option<T>>)
    ensures IsNull(o) ==> r == Ok(None)
    ensures !IsNull(o) ==> r == Lift(f(Present(o)))
  {
    if IsNull(o) then Ok(None) else Lift(f(Present(o)))
  }

  function MaybeInt(o: OptionalValue): Result<Option<int>> { MaybeApply(o, AsInt) }
  function MaybeString(o: OptionalValue): Result<Option<string>> { MaybeApply(o, AsString) }
  function MaybeBool(o: OptionalValue): Result<Option<bool>> { MaybeApply(o, AsBool) }
  function MaybeTrue(o: OptionalValue): Result<Option<bool>> { MaybeApply(o, AsTrue) }
  function MaybeFalse(o: OptionalValue): Result<Option<bool>> { MaybeApply(o, AsFalse) }
  function MaybeEnum(o: OptionalValue, names: seq<string>): Result<Option<string>>
  {
    MaybeApply(o, (v: Value) => Enum(v, names))
  }

  /**
   * The `¿` terminals: null exactly when absent; when present, a value exactly when the strict
   * conversion gives one, and otherwise the strict conversion's failure, which a present value
   * reports at its own pointer.
   */
  lemma TerminalsDelegate(o: OptionalValue)
    ensures MaybeInt(o) == Ok(None) <==> IsNull(o)
    ensures MaybeString(o) == Ok(None) <==> IsNull(o)
    ensures MaybeBool(o) == Ok(None) <==> IsNull(o)
    ensures MaybeTrue(o) == Ok(None) <==> IsNull(o)
    ensures MaybeFalse(o) == Ok(None) <==> IsNull(o)
    ensures MaybeInt(o).Ok? && !IsNull(o) <==> IsNumber(o)
    ensures MaybeString(o).Ok? && !IsNull(o) <==> IsString(o)
    ensures MaybeBool(o).Ok? && !IsNull(o) <==> IsBool(o)
    ensures MaybeTrue(o).Ok? && !IsNull(o) <==> IsTrue(o)
    ensures MaybeFalse(o).Ok? && !IsNull(o) <==> IsFalse(o)
    ensures !IsNull(o) && !IsNumber(o) ==> MaybeInt(o) == Fail(Leaf(Expected(Present(o).pointer, "a number", Present(o).node)))
    ensures !IsNull(o) && !IsString(o) ==> MaybeString(o) == Fail(Leaf(Expected(Present(o).pointer, "a string", Present(o).node)))
    ensures !IsNull(o) && !IsBool(o) ==> MaybeBool(o) == Fail(Leaf(Expected(Present(o).pointer, "true or false", Present(o).node)))
    ensures !IsNull(o) && !IsTrue(o) ==> MaybeTrue(o) == Fail(Leaf(Expected(Present(o).pointer, "true", Present(o).node)))
    ensures !IsNull(o) && !IsFalse(o) ==> MaybeFalse(o) == Fail(Leaf(Expected(Present(o).pointer, "false", Present(o).node)))
  {
  }

  /** `null`: returns when absent; a present value is never null, so it then always fails. */
  function Null(o: OptionalValue): (r: Result<()>)
    ensures r.Ok? <==> IsNull(o)
    ensures !IsNull(o) ==> r == Mismatch(Present(o), "null")
  {
    if IsNull(o) then Ok(()) else AsNull(Present(o))
  }

  // ---------------------------------------------------------------------------------------------
  // Maps and combinators.

  /** `¿arrayMapWithIndex`: null when absent, without calling back. */
  method MaybeArrayMapWithIndex<T>(o: OptionalValue, f: (int, Value) -> Result<T>)
    returns (r: Result<Option<seq<T>>>)
    ensures IsNull(o) ==> r == Ok(None)
    ensures !IsNull(o) ==> r == Lift(MappedArray(Present(o), f))
  {
    if IsNull(o) {
      return Ok(None);
    }
    r := Values.MaybeArrayMapWithIndex(Present(o), f);
  }

  /** `¿arrayMap`. */
  method MaybeArrayMap<T>(o: OptionalValue, f: Value -> Result<T>) returns (r: Result<Option<seq<T>>>)
    ensures IsNull(o) ==> r == Ok(None)
    ensures !IsNull(o) ==> r == Lift(MappedArray(Present(o), IgnoreKey(f)))
  {
    r := MaybeArrayMapWithIndex(o, IgnoreKey(f));
  }

  /** `¿objectMapWithIndex`: null when absent, without calling back. */
  method MaybeObjectMapWithIndex<T>(o: OptionalValue, f: (string, Value) -> Result<T>)
    returns (r: Result<Option<seq<(string, T)>>>)
    ensures IsNull(o) ==> r == Ok(None)
    ensures !IsNull(o) ==> r == Lift(MappedObject(Present(o), f))
  {
    if IsNull(o) {
      return Ok(None);
    }
    r := Values.MaybeObjectMapWithIndex(Present(o), f);
  }

  /** `¿objectMap`. */
  method MaybeObjectMap<T>(o: OptionalValue, f: Value -> Result<T>) returns (r: Result<Option<seq<(string, T)>>>)
    ensures IsNull(o) ==> r == Ok(None)
    ensures !IsNull(o) ==> r == Lift(MappedObject(Present(o), IgnoreKey(f)))
  {
    r := MaybeObjectMapWithIndex(o, IgnoreKey(f));
  }

  /** `¿either`: null when absent, the wrapped value's `either` otherwise. */
  method MaybeEither<T>(o: OptionalValue, f: Value -> Result<T>, g: Value -> Result<T>, hs: seq<Value -> Result<T>>)
    returns (r: Result<Option<T>>)
    ensures IsNull(o) ==> r == Ok(None)
    ensures !IsNull(o) ==> r == Lift(EitherOutcome(Present(o), f, g, hs))
  {
    if IsNull(o) {
      return Ok(None);
    }
    var e := Either(Present(o), f, g, hs);
    return Lift(e);
  }

  /**
   * When present, the optional forms of the wrapped value agree with these: a present
   * `OptionalValue` behaves as the non-null `Value` it wraps.
   */
  lemma PresentAgreesWithValue<T>(o: OptionalValue, f: Value -> Result<T>)
    requires !IsNull(o)
    ensures MaybeApply(o, f) == Values.MaybeApply(Present(o), f)
    ensures MaybeInt(o) == Values.MaybeInt(Present(o))
    ensures MaybeString(o) == Values.MaybeString(Present(o))
    ensures MaybeBool(o) == Values.MaybeBool(Present(o))
    ensures MaybeTrue(o) == Values.MaybeTrue(Present(o))
    ensures MaybeFalse(o) == Values.MaybeFalse(Present(o))
  {
  }

  // ---------------------------------------------------------------------------------------------
  // Encoding.

  /** `encode`: the literal `null` when absent. */
  function Encode(o: OptionalValue, options: int, depth: int, encoder: (Node, int, int) -> Encoded)
    : (r: Result<string>)
    ensures IsNull(o) ==> r == Ok("null")
    ensures !IsNull(o) ==> r == Values.Encode(Present(o), options, depth, encoder)
  {
    if IsNull(o) then Ok("null") else Values.Encode(Present(o), options, depth, encoder)
  }

  /** `¿encode`: null when absent. */
  function MaybeEncode(o: OptionalValue, options: int, depth: int, encoder: (Node, int, int) -> Encoded)
    : (r: Result<Option<string>>)
    ensures IsNull(o) ==> r == Ok(None)
    ensures !IsNull(o) ==> r == Lift(Encode(o, options, depth, encoder))
  {
    if IsNull(o) then Ok(None) else Lift(Encode(o, options, depth, encoder))
  }

  /** `prettyPrint`: the literal `null` when absent. */
  function PrettyPrint(o: OptionalValue, depth: int, encoder: (Node, int, int) -> Encoded): (r: Result<string>)
    ensures IsNull(o) ==> r == Ok("null")
    ensures !IsNull(o) ==> r == Values.PrettyPrint(Present(o), depth, encoder)
  {
    if IsNull(o) then Ok("null") else Values.PrettyPrint(Present(o), depth, encoder)
  }

  /** `¿prettyPrint`: null when absent. */
  function MaybePrettyPrint(o: OptionalValue, depth: int, encoder: (Node, int, int) -> Encoded)
    : (r: Result<Option<string>>)
    ensures IsNull(o) ==> r == Ok(None)
    ensures !IsNull(o) ==> r == Lift(PrettyPrint(o, depth, encoder))
  {
    if IsNull(o) then Ok(None) else Lift(PrettyPrint(o, depth, encoder))
  }

  /**
   * The absent state short-circuits everything: no predicate holds, every `¿` form gives null
   * whatever the callbacks, `null` returns, and encoding gives the literal `null` without
   * consulting the encoder.
   */
  lemma AbsentShortCircuits<T>(o: OptionalValue, f: Value -> Result<T>, names: seq<string>,
                               options: int, depth: int, encoder: (Node, int, int) -> Encoded)
    requires IsNull(o)
    ensures !IsObject(o) && !IsArray(o) && !IsNumber(o) && !IsString(o)
    ensures !IsBool(o) && !IsTrue(o) && !IsFalse(o)
    ensures MaybeInt(o) == Ok(None) && MaybeString(o) == Ok(None) && MaybeEnum(o, names) == Ok(None)
    ensures MaybeBool(o) == Ok(None) && MaybeTrue(o) == Ok(None) && MaybeFalse(o) == Ok(None)
    ensures MaybeApply(o, f) == Ok(None)
    ensures Null(o) == Ok(())
    ensures Encode(o, options, depth, encoder) == PrettyPrint(o, depth, encoder) == Ok("null")
    ensures MaybeEncode(o, options, depth, encoder) == MaybePrettyPrint(o, depth, encoder) == Ok(None)
  {
  }
}
