/** lib/MethodCombinator.php: calls every method of one name that the units of
    a class's method resolution order define themselves, and folds the results
    with a combining function, from an initial value. */
module Combinator {
  import opened Wrappers
  import opened Hierarchy
  import opened C3Linearization

  /** A method found by reflection: the unit it was looked up on (its declaring
      class) and the name it was found under. */
  datatype MethodRef = MethodRef(owner: Name, name: string)

  /** An entry of the array `getDefinedMethods` returns: `array_filter` keeps
      the position in the order as the key. */
  datatype DefinedMethod = DefinedMethod(key: nat, ref: MethodRef)

  /** `getTraitMethodPrefix`: `Some(f)` for a combinator whose class overrides
      it with `f`, `None` for the default, which throws `BadMethodCallException`. */
  type Prefix = Option<Name -> string>

  predicate AllIn(h: Graph, units: seq<Name>) {
    forall i :: 0 <= i < |units| ==> units[i] in h
  }

  // ---------------------------------------------------------------------------
  // One step of the walk

  /** `getImmediateMethod`: the method named `m` that unit `u` defines itself,
      if any, together with the new value of the by-reference `$instanceClass`.
      With traits included, a trait's method is looked for under the trait's
      prefix, on the class last seen in the walk (PHP copies trait methods
      into the classes that use them), and every class becomes the instance
      class. A method counts only when the unit it is looked up on declares it. */
  function ImmediateMethod(h: Graph, includeTraits: bool, prefix: Prefix, m: string, u: Name, inst: Option<Name>)
    : (r: Result<(Option<MethodRef>, Option<Name>), Error>)
    requires u in h && (inst.Some? ==> inst.value in h)
    ensures r.Err? <==> includeTraits && h[u].isTrait && prefix.None?
    ensures r.Err? ==> r.error == BadMethodCall
    ensures r.Ok? ==> (r.value.1.Some? ==> r.value.1.value in h)
    ensures r.Ok? && r.value.0.Some? ==>
              var found := r.value.0.value;
              found.owner in h && found.name in h[found.owner].ownMethods
  {
    if includeTraits && h[u].isTrait && prefix.None? then Err(BadMethodCall)
    else
      var name := if includeTraits && h[u].isTrait then prefix.value(u) + m else m;
      var inst' := if includeTraits && !h[u].isTrait then Some(u) else inst;
      var useClass := inst'.GetOr(u);
      var found := if name in h[useClass].ownMethods then Some(MethodRef(useClass, name)) else None;
      Ok((found, inst'))
  }

  /** `array_filter(array_map(invoker, $classes))` from position `i` on, with
      `$instanceClass` at `inst`: the methods found, keyed by position, or the
      first exception. */
  function Walk(h: Graph, includeTraits: bool, prefix: Prefix, m: string, units: seq<Name>, i: nat, inst: Option<Name>)
    : (r: Result<seq<DefinedMethod>, Error>)
    requires AllIn(h, units) && i <= |units| && (inst.Some? ==> inst.value in h)
    ensures r.Err? ==> r.error == BadMethodCall
    decreases |units| - i
  {
    if i == |units| then Ok([])
    else
      match ImmediateMethod(h, includeTraits, prefix, m, units[i], inst)
      case Err(e) => Err(e)
      case Ok((found, inst')) =>
        var here := if found.Some? then [DefinedMethod(i, found.value)] else [];
        match Walk(h, includeTraits, prefix, m, units, i + 1, inst')
        case Err(e) => Err(e)
        case Ok(rest) => Ok(here + rest)
  }

  /** Every method the walk finds is keyed by a position of the order at or
      after the start. */
  lemma {:induction false} WalkKeys(h: Graph, includeTraits: bool, prefix: Prefix, m: string, units: seq<Name>, i: nat, inst: Option<Name>)
    requires AllIn(h, units) && i <= |units| && (inst.Some? ==> inst.value in h)
    requires Walk(h, includeTraits, prefix, m, units, i, inst).Ok?
    ensures forall d :: d in Walk(h, includeTraits, prefix, m, units, i, inst).value ==> i <= d.key < |units|
    decreases |units| - i
  {
    if i < |units| {
      var (found, inst') := ImmediateMethod(h, includeTraits, prefix, m, units[i], inst).value;
      WalkKeys(h, includeTraits, prefix, m, units, i + 1, inst');
    }
  }

  /** The walk past the last position finds nothing. */
  lemma WalkDone(h: Graph, includeTraits: bool, prefix: Prefix, m: string, units: seq<Name>, inst: Option<Name>)
    requires AllIn(h, units) && (inst.Some? ==> inst.value in h)
    ensures Walk(h, includeTraits, prefix, m, units, |units|, inst) == Ok([])
  {
  }

  /** One position of the walk: what `getImmediateMethod` finds there, before
      what the rest of the walk finds with the instance class it leaves. */
  lemma WalkStep(h: Graph, includeTraits: bool, prefix: Prefix, m: string, units: seq<Name>, i: nat, inst: Option<Name>,
                 found: Option<MethodRef>, inst': Option<Name>, rest: seq<DefinedMethod>, out: seq<DefinedMethod>)
    requires AllIn(h, units) && i < |units| && (inst.Some? ==> inst.value in h)
    requires ImmediateMethod(h, includeTraits, prefix, m, units[i], inst) == Ok((found, inst'))
    requires Walk(h, includeTraits, prefix, m, units, i + 1, inst') == Ok(rest)
    requires out == (if found.Some? then [DefinedMethod(i, found.value)] else []) + rest
    ensures Walk(h, includeTraits, prefix, m, units, i, inst) == Ok(out)
  {
  }

  /** `getDefinedMethods`: the walk over the method resolution order of `c`,
      with a fresh `$instanceClass`. */
  function DefinedMethods(h: Graph, rank: Name -> nat, includeTraits: bool, prefix: Prefix, c: Name, m: string)
    : (r: Result<seq<DefinedMethod>, Error>)
    requires Ranked(h, rank) && c in h
    ensures r.Err? ==> r.error == IndeterminateHierarchy || r.error == BadMethodCall
  {
    match Linearization(h, rank, c)
    case Err(e) => Err(e)
    case Ok(units) =>
      LinearizationMembers(h, rank, c);
      Walk(h, includeTraits, prefix, m, units, 0, None)
  }

  /** `getDefinedMethods` passes on the exception of `mro`, or walks the order
      it returns, whose units are all described. */
  lemma DefinedMethodsOfOrder(h: Graph, rank: Name -> nat, includeTraits: bool, prefix: Prefix, c: Name, m: string)
    requires Ranked(h, rank) && c in h
    ensures Linearization(h, rank, c).Err? ==>
              DefinedMethods(h, rank, includeTraits, prefix, c, m) == Err(Linearization(h, rank, c).error)
    ensures Linearization(h, rank, c).Ok? ==>
              AllIn(h, Linearization(h, rank, c).value) &&
              DefinedMethods(h, rank, includeTraits, prefix, c, m) ==
              Walk(h, includeTraits, prefix, m, Linearization(h, rank, c).value, 0, None)
  {
    if Linearization(h, rank, c).Ok? {
      LinearizationMembers(h, rank, c);
    }
  }

  // ---------------------------------------------------------------------------
  // A stateless description of the walk

  /** The class whose methods a trait at position `i` is looked up on: the last
      class (not trait) at or before `i` in the order, when traits are included
      and there is one. */
  function LastClassUpTo(h: Graph, includeTraits: bool, units: seq<Name>, i: nat): (r: Option<Name>)
    requires AllIn(h, units) && i <= |units|
    ensures r.Some? ==> r.value in h
  {
    if i == 0 || !includeTraits then None
    else if !h[units[i - 1]].isTrait then Some(units[i - 1])
    else LastClassUpTo(h, includeTraits, units, i - 1)
  }

  /** The order holds a trait from position `i` on. */
  predicate HasTraitFrom(h: Graph, units: seq<Name>, i: nat)
    requires AllIn(h, units)
  {
    exists j :: i <= j < |units| && h[units[j]].isTrait
  }

  /** The prefix is needed (traits are included and some unit is a trait) only
      where it exists. */
  predicate PrefixAvailable(h: Graph, includeTraits: bool, prefix: Prefix, units: seq<Name>, i: nat)
    requires AllIn(h, units)
  {
    !(includeTraits && prefix.None? && HasTraitFrom(h, units, i))
  }

  /** The method that position `i` contributes, read from the unit there and
      the last class before it. */
  function LookupAt(h: Graph, includeTraits: bool, prefix: Prefix, m: string, units: seq<Name>, i: nat): (r: Option<MethodRef>)
    requires AllIn(h, units) && i < |units| && PrefixAvailable(h, includeTraits, prefix, units, i)
  {
    var u := units[i];
    var asTrait := includeTraits && h[u].isTrait;
    var name := if asTrait then prefix.value(u) + m else m;
    var owner := LastClassUpTo(h, includeTraits, units, i + 1).GetOr(u);
    if name in h[owner].ownMethods then Some(MethodRef(owner, name)) else None
  }

  /** The contributions of the positions from `i` on, in order. */
  function Gather(h: Graph, includeTraits: bool, prefix: Prefix, m: string, units: seq<Name>, i: nat): seq<DefinedMethod>
    requires AllIn(h, units) && i <= |units| && PrefixAvailable(h, includeTraits, prefix, units, i)
    decreases |units| - i
  {
    if i == |units| then []
    else
      var found := LookupAt(h, includeTraits, prefix, m, units, i);
      (if found.Some? then [DefinedMethod(i, found.value)] else []) + Gather(h, includeTraits, prefix, m, units, i + 1)
  }

  // ---------------------------------------------------------------------------
  // What the walk computes

  /** The walk threads `$instanceClass` as the last class seen: from position
      `i` it throws exactly when the default prefix meets a trait, and
      otherwise finds what the stateless description gives. */
  lemma {:induction false} WalkIsGather(h: Graph, includeTraits: bool, prefix: Prefix, m: string, units: seq<Name>, i: nat)
    requires AllIn(h, units) && i <= |units|
    ensures Walk(h, includeTraits, prefix, m, units, i, LastClassUpTo(h, includeTraits, units, i)) ==
              if PrefixAvailable(h, includeTraits, prefix, units, i)
              then Ok(Gather(h, includeTraits, prefix, m, units, i))
              else Err(BadMethodCall)
    decreases |units| - i
  {
    if i < |units| {
      WalkIsGather(h, includeTraits, prefix, m, units, i + 1);
      assert HasTraitFrom(h, units, i) <==> h[units[i]].isTrait || HasTraitFrom(h, units, i + 1);
    }
  }

  /** Every entry is a position of the order with the method found there, the
      positions strictly increase, and every position where a method is found
      has its entry. */
  lemma {:induction false} GatherEntries(h: Graph, includeTraits: bool, prefix: Prefix, m: string, units: seq<Name>, i: nat)
    requires AllIn(h, units) && i <= |units| && PrefixAvailable(h, includeTraits, prefix, units, i)
    ensures forall d :: d in Gather(h, includeTraits, prefix, m, units, i) ==>
              i <= d.key < |units| && LookupAt(h, includeTraits, prefix, m, units, d.key) == Some(d.ref)
    ensures forall j :: i <= j < |units| && LookupAt(h, includeTraits, prefix, m, units, j).Some? ==>
              DefinedMethod(j, LookupAt(h, includeTraits, prefix, m, units, j).value) in Gather(h, includeTraits, prefix, m, units, i)
    ensures forall a, b :: 0 <= a < b < |Gather(h, includeTraits, prefix, m, units, i)| ==>
              Gather(h, includeTraits, prefix, m, units, i)[a].key < Gather(h, includeTraits, prefix, m, units, i)[b].key
    decreases |units| - i
  {
    if i < |units| {
      assert HasTraitFrom(h, units, i + 1) ==> HasTraitFrom(h, units, i);
      GatherEntries(h, includeTraits, prefix, m, units, i + 1);
    }
  }

  /** Excluding traits, a position contributes exactly when its unit declares
      a method of the plain name, and the method is that unit's. */
  lemma LookupExcludingTraits(h: Graph, prefix: Prefix, m: string, units: seq<Name>, i: nat)
    requires AllIn(h, units) && i < |units|
    ensures PrefixAvailable(h, false, prefix, units, i)
    ensures LookupAt(h, false, prefix, m, units, i) ==
              if m in h[units[i]].ownMethods then Some(MethodRef(units[i], m)) else None
  {
  }

  /** Including traits, a class contributes its own method of the plain name,
      and a trait contributes its prefixed method as declared by the nearest
      class before it in the order, or by the trait itself when no class comes
      before it. */
  lemma LookupIncludingTraits(h: Graph, f: Name -> string, m: string, units: seq<Name>, i: nat)
    requires AllIn(h, units) && i < |units|
    ensures PrefixAvailable(h, true, Some(f), units, i)
    ensures !h[units[i]].isTrait ==>
              LookupAt(h, true, Some(f), m, units, i) ==
              if m in h[units[i]].ownMethods then Some(MethodRef(units[i], m)) else None
    ensures h[units[i]].isTrait ==>
              var owner := if exists j :: 0 <= j < i && !h[units[j]].isTrait
                           then units[LastClassIndex(h, units, i)] else units[i];
              LookupAt(h, true, Some(f), m, units, i) ==
              if f(units[i]) + m in h[owner].ownMethods then Some(MethodRef(owner, f(units[i]) + m)) else None
  {
    if h[units[i]].isTrait {
      LastClassFound(h, units, i);
    }
  }

  /** The position of the last class before `i`, when there is one. */
  function LastClassIndex(h: Graph, units: seq<Name>, i: nat): (j: nat)
    requires AllIn(h, units) && i <= |units| && exists j :: 0 <= j < i && !h[units[j]].isTrait
    ensures j < i && !h[units[j]].isTrait && forall k :: j < k < i ==> h[units[k]].isTrait
  {
    if !h[units[i - 1]].isTrait then i - 1 else LastClassIndex(h, units, i - 1)
  }

  /** The instance class a trait at `i` meets is the last class before it. */
  lemma {:induction false} LastClassFound(h: Graph, units: seq<Name>, i: nat)
    requires AllIn(h, units) && i <= |units|
    ensures (exists j :: 0 <= j < i && !h[units[j]].isTrait) ==>
              LastClassUpTo(h, true, units, i) == Some(units[LastClassIndex(h, units, i)])
    ensures (forall j :: 0 <= j < i ==> h[units[j]].isTrait) ==> LastClassUpTo(h, true, units, i) == None
  {
    if i > 0 {
      LastClassFound(h, units, i - 1);
    }
  }

  /** `getDefinedMethods` throws `BadMethodCall` exactly when the order is
      computed, traits are included with the default prefix, and the order
      holds a trait; when it succeeds it holds what the stateless description
      gives. */
  lemma DefinedMethodsSpec(h: Graph, rank: Name -> nat, includeTraits: bool, prefix: Prefix, c: Name, m: string)
    requires Ranked(h, rank) && c in h
    ensures Linearization(h, rank, c).Err? ==> DefinedMethods(h, rank, includeTraits, prefix, c, m) == Err(IndeterminateHierarchy)
    ensures Linearization(h, rank, c).Ok? ==>
              var units := Linearization(h, rank, c).value;
              AllIn(h, units) &&
              DefinedMethods(h, rank, includeTraits, prefix, c, m) ==
              if PrefixAvailable(h, includeTraits, prefix, units, 0)
              then Ok(Gather(h, includeTraits, prefix, m, units, 0))
              else Err(BadMethodCall)
  {
    if Linearization(h, rank, c).Ok? {
      LinearizationMembers(h, rank, c);
      WalkIsGather(h, includeTraits, prefix, m, Linearization(h, rank, c).value, 0);
    }
  }

  // ---------------------------------------------------------------------------
  // Combining the results

  /** The `foreach` of `execute`: `$final = op($final, result)` for every
      method in turn, from the left. */
  function Fold<T>(op: (T, T) -> T, acc: T, call: MethodRef -> T, ds: seq<DefinedMethod>): T
    decreases |ds|
  {
    if ds == [] then acc else Fold(op, op(acc, call(ds[0].ref)), call, ds[1..])
  }

  /** Folding a concatenation folds the second part from where the first ends. */
  lemma {:induction false} FoldAppend<T>(op: (T, T) -> T, acc: T, call: MethodRef -> T, xs: seq<DefinedMethod>, ys: seq<DefinedMethod>)
    ensures Fold(op, acc, call, xs + ys) == Fold(op, Fold(op, acc, call, xs), call, ys)
    decreases |xs|
  {
    if xs == [] {
      assert xs + ys == ys;
    } else {
      assert (xs + ys)[0] == xs[0] && (xs + ys)[1..] == xs[1..] + ys;
      FoldAppend(op, op(acc, call(xs[0].ref)), call, xs[1..], ys);
    }
  }

  /** The results, in order, of calling the methods. */
  function Results<T>(call: MethodRef -> T, ds: seq<DefinedMethod>): (r: seq<T>)
    ensures |r| == |ds| && forall k :: 0 <= k < |ds| ==> r[k] == call(ds[k].ref)
  {
    if ds == [] then [] else [call(ds[0].ref)] + Results(call, ds[1..])
  }

  /** With `array_merge` of lists as the operation (concatenation), the
      combination is the initial list followed by the results of every method,
      in order. */
  lemma {:induction false} FoldConcat<X>(op: (seq<X>, seq<X>) -> seq<X>, acc: seq<X>, call: MethodRef -> seq<X>, ds: seq<DefinedMethod>)
    requires forall a, b :: op(a, b) == a + b
    ensures Fold(op, acc, call, ds) == acc + Flatten(Results(call, ds))
    decreases |ds|
  {
    if ds == [] {
      assert acc + [] == acc;
    } else {
      FoldConcat(op, acc + call(ds[0].ref), call, ds[1..]);
      assert Results(call, ds) == [call(ds[0].ref)] + Results(call, ds[1..]);
      assert Results(call, ds)[1..] == Results(call, ds[1..]);
      assert Flatten(Results(call, ds)) == call(ds[0].ref) + Flatten(Results(call, ds[1..]));
      assert op(acc, call(ds[0].ref)) == acc + call(ds[0].ref);
      assert acc + call(ds[0].ref) + Flatten(Results(call, ds[1..])) ==
             acc + (call(ds[0].ref) + Flatten(Results(call, ds[1..])));
    }
  }

  function Flatten<X>(xss: seq<seq<X>>): seq<X> {
    if xss == [] then [] else xss[0] + Flatten(xss[1..])
  }

  /** `execute`: the class by name, its defined methods, and their results
      folded with `op` from `iv`. `call` gives the value each method returns
      for the instance and arguments of this call. */
  function Execution<T>(h: Graph, rank: Name -> nat, iv: T, op: (T, T) -> T, includeTraits: bool, prefix: Prefix,
                        c: Name, m: string, call: MethodRef -> T): (r: Result<T, Error>)
    requires Ranked(h, rank)
    ensures r == Err(UnknownClass) <==> c !in h
    ensures r.Err? ==> r.error == UnknownClass || r.error == IndeterminateHierarchy || r.error == BadMethodCall
  {
    if c !in h then Err(UnknownClass)
    else
      match DefinedMethods(h, rank, includeTraits, prefix, c, m)
      case Err(e) => Err(e)
      case Ok(ds) => Ok(Fold(op, iv, call, ds))
  }

  /** A class that defines no method of the name in its order combines to the
      initial value. */
  lemma ExecutionOfNothing<T>(h: Graph, rank: Name -> nat, iv: T, op: (T, T) -> T, includeTraits: bool, prefix: Prefix,
                              c: Name, m: string, call: MethodRef -> T)
    requires Ranked(h, rank) && c in h && DefinedMethods(h, rank, includeTraits, prefix, c, m) == Ok([])
    ensures Execution(h, rank, iv, op, includeTraits, prefix, c, m, call) == Ok(iv)
  {
  }

  // ---------------------------------------------------------------------------
  // The combinator object

  /** A `MethodCombinator` with its initial value, combining function, trait
      mode and trait-method prefix. The memo of `getDefinedMethods` is the
      field `cache`, keyed like the source's by trait mode, class and method
      name; the linearizer holds the memo of `mro`. */
  class MethodCombinator<T> {
    const iv: T
    const op: (T, T) -> T
    const includeTraits: bool
    const prefix: Prefix
    const linearizer: Linearizer
    var cache: map<(bool, Name, string), seq<DefinedMethod>>

    ghost predicate Valid()
      reads this, linearizer
    {
      linearizer.Valid() &&
      forall key :: key in cache ==>
        key.1 in linearizer.h && key.0 == includeTraits &&
        DefinedMethods(linearizer.h, linearizer.rank, includeTraits, prefix, key.1, key.2) == Ok(cache[key])
    }

    constructor (iv: T, op: (T, T) -> T, includeTraits: bool, prefix: Prefix, linearizer: Linearizer)
      requires linearizer.Valid()
      ensures Valid() && cache == map[]
      ensures this.iv == iv && this.op == op && this.includeTraits == includeTraits
      ensures this.prefix == prefix && this.linearizer == linearizer
    {
      this.iv := iv;
      this.op := op;
      this.includeTraits := includeTraits;
      this.prefix := prefix;
      this.linearizer := linearizer;
      cache := map[];
    }

    /** `array_filter(array_map($this->getImmediateMethodInvoker($m), $units))`:
        one pass over the order, with `$instanceClass` updated as it goes. */
    method ImmediateMethods(units: seq<Name>, m: string) returns (r: Result<seq<DefinedMethod>, Error>)
      requires AllIn(linearizer.h, units)
      ensures r == Walk(linearizer.h, includeTraits, prefix, m, units, 0, None)
    {
      var h := linearizer.h;
      var instanceClass: Option<Name> := None;
      var methods: seq<DefinedMethod> := [];
      var i := 0;
      assert Walk(h, includeTraits, prefix, m, units, 0, None) ==
             Prepend(methods, Walk(h, includeTraits, prefix, m, units, 0, None)) by {
        var w := Walk(h, includeTraits, prefix, m, units, 0, None);
        if w.Ok? { assert methods + w.value == w.value; }
      }
      while i < |units|
        invariant 0 <= i <= |units|
        invariant instanceClass.Some? ==> instanceClass.value in h
        invariant Walk(h, includeTraits, prefix, m, units, 0, None) ==
                  Prepend(methods, Walk(h, includeTraits, prefix, m, units, i, instanceClass))
      {
        var step := ImmediateMethod(h, includeTraits, prefix, m, units[i], instanceClass);
        if step.Err? {
          return Err(step.error);
        }
        var (found, inst') := step.value;
        var here := if found.Some? then [DefinedMethod(i, found.value)] else [];
        PrependPrepend(methods, here, Walk(h, includeTraits, prefix, m, units, i + 1, inst'));
        methods := methods + here;
        instanceClass := inst';
        i := i + 1;
      }
      assert methods + [] == methods;
      return Ok(methods);
    }

    /** `getDefinedMethods`: the memoized entry when there is one; otherwise the
        order from the linearizer, walked, and stored on success. */
    method GetDefinedMethods(c: Name, m: string) returns (r: Result<seq<DefinedMethod>, Error>)
      requires Valid() && c in linearizer.h
      modifies this, linearizer
      ensures Valid()
      ensures r == DefinedMethods(linearizer.h, linearizer.rank, includeTraits, prefix, c, m)
      ensures r.Ok? ==> (includeTraits, c, m) in cache
      ensures Extends(old(cache), cache) && Extends(old(linearizer.cache), linearizer.cache)
    {
      var key := (includeTraits, c, m);
      if key in cache {
        return Ok(cache[key]);
      }
      var units := linearizer.Mro(c);
      DefinedMethodsOfOrder(linearizer.h, linearizer.rank, includeTraits, prefix, c, m);
      if units.Err? {
        return Err(units.error);
      }
      r := ImmediateMethods(units.value, m);
      if r.Ok? {
        cache := cache[key := r.value];
      }
    }

    /** `execute`: the class by name (`UnknownClass` when it is not loaded),
        its defined methods, and the left fold of their results with `op`. */
    method Execute(c: Name, m: string, call: MethodRef -> T) returns (r: Result<T, Error>)
      requires Valid()
      modifies this, linearizer
      ensures Valid()
      ensures r == Execution(linearizer.h, linearizer.rank, iv, op, includeTraits, prefix, c, m, call)
      ensures Extends(old(cache), cache) && Extends(old(linearizer.cache), linearizer.cache)
    {
      if c !in linearizer.h {
        return Err(UnknownClass);
      }
      var methods := GetDefinedMethods(c, m);
      if methods.Err? {
        return Err(methods.error);
      }
      var ds := methods.value;
      var final := iv;
      var k := 0;
      while k < |ds|
        invariant 0 <= k <= |ds|
        invariant Fold(op, iv, call, ds) == Fold(op, final, call, ds[k..])
      {
        assert ds[k..][1..] == ds[k + 1..];
        final := op(final, call(ds[k].ref));
        k := k + 1;
      }
      return Ok(final);
    }

    /** `invoke`: `execute` on the class of the instance. */
    method Invoke(m: string, instanceClass: Name, call: MethodRef -> T) returns (r: Result<T, Error>)
      requires Valid()
      modifies this, linearizer
      ensures Valid()
      ensures r == Execution(linearizer.h, linearizer.rank, iv, op, includeTraits, prefix, instanceClass, m, call)
      ensures Extends(old(cache), cache) && Extends(old(linearizer.cache), linearizer.cache)
    {
      r := Execute(instanceClass, m, call);
    }
  }
}
