/** `mro` of lib/C3Linearization.php: the method resolution order of a unit,
    built by merging the orders of its traits and parent class, and memoized
    by unit name. */
module C3Linearization {
  import opened Wrappers
  import opened Hierarchy
  import opened C3Merge

  /** The lists `mro` hands to `merge` for unit `u`: the seed `[u]`, the orders
      of its parents `ps` (`array_map('self::mro', $parents)`), and `ps` itself. */
  function MroInputs(u: Name, ms: Seqs, ps: seq<Name>): (r: Seqs)
    ensures |r| == |ms| + 2 && r[0] == [u] && r[|ms| + 1] == ps
    ensures forall i :: 0 <= i < |ms| ==> r[i + 1] == ms[i]
  {
    [[u]] + ms + [ps]
  }

  /** The method resolution order of `u`, or the `IndeterminateHierarchy` thrown
      while computing it or the order of one of its parents. */
  function Linearization(h: Graph, rank: Name -> nat, u: Name): (r: Result<seq<Name>, Error>)
    requires Ranked(h, rank) && u in h
    ensures r.Err? ==> r.error == IndeterminateHierarchy
    decreases rank(u), 1, 0
  {
    var ps := Parents(h[u]);
    match LinearizeAll(h, rank, ps, rank(u))
    case Err(e) => Err(e)
    case Ok(ms) => Merge(MroInputs(u, ms, ps))
  }

  /** `array_map('self::mro', $ps)`: the orders of `ps`, in order, or the first
      exception one of them throws. `bound` is a rank above every unit in `ps`. */
  function LinearizeAll(h: Graph, rank: Name -> nat, ps: seq<Name>, bound: nat): (r: Result<Seqs, Error>)
    requires Ranked(h, rank) && forall p :: p in ps ==> p in h && rank(p) < bound
    ensures r.Ok? ==> |r.value| == |ps|
    ensures r.Err? ==> r.error == IndeterminateHierarchy
    decreases bound, 0, |ps|
  {
    if ps == [] then Ok([])
    else
      match Linearization(h, rank, ps[0])
      case Err(e) => Err(e)
      case Ok(m) =>
        match LinearizeAll(h, rank, ps[1..], bound)
        case Err(e) => Err(e)
        case Ok(ms) => Ok([m] + ms)
  }

  /** The orders of the parents of `u`. */
  function ParentOrders(h: Graph, rank: Name -> nat, u: Name): Result<Seqs, Error>
    requires Ranked(h, rank) && u in h
  {
    LinearizeAll(h, rank, Parents(h[u]), rank(u))
  }

  // ---------------------------------------------------------------------------
  // Properties of the order

  /** The parents' orders succeed together or not at all, and each is the order
      of the corresponding parent. */
  lemma LinearizeAllPointwise(h: Graph, rank: Name -> nat, ps: seq<Name>, bound: nat)
    requires Ranked(h, rank) && forall p :: p in ps ==> p in h && rank(p) < bound
    ensures LinearizeAll(h, rank, ps, bound).Ok? <==> forall i :: 0 <= i < |ps| ==> Linearization(h, rank, ps[i]).Ok?
    ensures LinearizeAll(h, rank, ps, bound).Ok? ==>
              forall i :: 0 <= i < |ps| ==> Linearization(h, rank, ps[i]) == Ok(LinearizeAll(h, rank, ps, bound).value[i])
  {
    LinearizeAllSucceeds(h, rank, ps, bound);
    if LinearizeAll(h, rank, ps, bound).Ok? {
      LinearizeAllValues(h, rank, ps, bound);
    }
  }

  lemma {:induction false} LinearizeAllSucceeds(h: Graph, rank: Name -> nat, ps: seq<Name>, bound: nat)
    requires Ranked(h, rank) && forall p :: p in ps ==> p in h && rank(p) < bound
    ensures LinearizeAll(h, rank, ps, bound).Ok? <==> forall i :: 0 <= i < |ps| ==> Linearization(h, rank, ps[i]).Ok?
    decreases |ps|
  {
    if ps != [] {
      LinearizeAllSucceeds(h, rank, ps[1..], bound);
      assert forall i :: 1 <= i < |ps| ==> ps[i] == ps[1..][i - 1];
    }
  }

  lemma {:induction false} LinearizeAllValues(h: Graph, rank: Name -> nat, ps: seq<Name>, bound: nat)
    requires Ranked(h, rank) && forall p :: p in ps ==> p in h && rank(p) < bound
    requires LinearizeAll(h, rank, ps, bound).Ok?
    ensures forall i :: 0 <= i < |ps| ==> Linearization(h, rank, ps[i]) == Ok(LinearizeAll(h, rank, ps, bound).value[i])
    decreases |ps|
  {
    if ps != [] {
      LinearizeAllValues(h, rank, ps[1..], bound);
      assert forall i :: 1 <= i < |ps| ==> ps[i] == ps[1..][i - 1];
    }
  }

  /** Every unit in the order of `u` is described and ranks no higher than `u`. */
  lemma {:induction false} LinearizationMembers(h: Graph, rank: Name -> nat, u: Name)
    requires Ranked(h, rank) && u in h && Linearization(h, rank, u).Ok?
    ensures forall x :: x in Linearization(h, rank, u).value ==> x in h && rank(x) <= rank(u)
    decreases rank(u)
  {
    var ps := Parents(h[u]);
    var ms := ParentOrders(h, rank, u).value;
    var inputs := MroInputs(u, ms, ps);
    LinearizeAllPointwise(h, rank, ps, rank(u));
    MergeSound(inputs);
    forall x | x in Linearization(h, rank, u).value ensures x in h && rank(x) <= rank(u) {
      var k :| 0 <= k < |inputs| && x in inputs[k];
      if 1 <= k <= |ms| {
        assert inputs[k] == ms[k - 1];
        LinearizationMembers(h, rank, ps[k - 1]);
      } else if k > |ms| {
        assert inputs[k] == ps;
      }
    }
  }

  /** No unit of a parent's order, and no parent, is `u` itself. */
  lemma UnitNotInParentOrders(h: Graph, rank: Name -> nat, u: Name)
    requires Ranked(h, rank) && u in h && ParentOrders(h, rank, u).Ok?
    ensures forall s :: s in ParentOrders(h, rank, u).value ==> u !in s
    ensures u !in Parents(h[u])
  {
    var ps := Parents(h[u]);
    var ms := ParentOrders(h, rank, u).value;
    LinearizeAllPointwise(h, rank, ps, rank(u));
    forall s | s in ms ensures u !in s {
      var i :| 0 <= i < |ms| && ms[i] == s;
      LinearizationMembers(h, rank, ps[i]);
    }
  }

  /** When `u` occurs in no parent order and is not its own parent, the seed
      `[u]` heads the filtered inputs and is the first eligible head. */
  lemma SeedIsEligible(u: Name, ms: Seqs, ps: seq<Name>)
    requires forall s :: s in ms ==> u !in s
    requires u !in ps
    ensures NonEmpty(MroInputs(u, ms, ps)) != [] && NonEmpty(MroInputs(u, ms, ps))[0] == [u]
    ensures FindCandidate(NonEmpty(MroInputs(u, ms, ps))) == Some(0)
  {
    var inputs := MroInputs(u, ms, ps);
    var live := NonEmpty(inputs);
    NonEmptyMembers(inputs[1..]);
    assert inputs == [[u]] + inputs[1..];
    assert live == [[u]] + NonEmpty(inputs[1..]);
    forall k | 0 <= k < |live| ensures !InTail(u, live[k]) {
      if k > 0 {
        assert live[k] in inputs[1..];
        var i :| 1 <= i < |inputs| && inputs[i] == live[k];
        if i <= |ms| {
          assert inputs[i] == ms[i - 1];
          assert ms[i - 1] in ms;
        } else {
          assert inputs[i] == ps;
        }
      }
    }
    NotHeadSpec(u, live);
  }

  /** `mro(U)` starts with `U`. */
  lemma LinearizationStartsWithUnit(h: Graph, rank: Name -> nat, u: Name)
    requires Ranked(h, rank) && u in h && Linearization(h, rank, u).Ok?
    ensures |Linearization(h, rank, u).value| > 0 && Linearization(h, rank, u).value[0] == u
  {
    var ps := Parents(h[u]);
    var ms := ParentOrders(h, rank, u).value;
    var inputs := MroInputs(u, ms, ps);
    UnitNotInParentOrders(h, rank, u);
    SeedIsEligible(u, ms, ps);
    MergeFiltered(inputs);
    MergeRound(NonEmpty(inputs), 0);
  }

  /** A unit with no parent and no traits is its own order: `mro(U) == [U]`. */
  lemma LinearizationOfLeaf(h: Graph, rank: Name -> nat, u: Name)
    requires Ranked(h, rank) && u in h && h[u].parent.None? && h[u].traits == []
    ensures Linearization(h, rank, u) == Ok([u])
  {
    assert Parents(h[u]) == [];
    var inputs := MroInputs(u, [], []);
    assert Linearization(h, rank, u) == Merge(inputs);
    var live := NonEmpty(inputs);
    assert live == [[u]] by {
      assert inputs == [[u], []];
      assert inputs[1..] == [[]];
      assert NonEmpty(inputs[1..]) == [];
    }
    MergeFiltered(inputs);
    assert FindCandidate(live) == Some(0) by {
      assert !NotHead(u, live);
    }
    MergeRound(live, 0);
    var next := RemoveHead(u, live);
    assert next == [[]];
    assert NonEmpty(next) == [] by { assert next[1..] == []; }
    var rest := Merge(NonEmpty(next));
    assert rest == Ok([]) by { assert Merge([]) == Ok([]); }
    assert Merge(live) == Prepend([u], rest);
    assert Prepend([u], rest) == Ok([u]) by { assert [u] + [] == [u]; }
    assert Merge(inputs) == Merge(live);
  }

  /** What `mro` promises about order when it succeeds: no unit twice; the
      local precedence list kept (traits in declaration order, then the parent
      class); and the order of every parent kept (monotonicity). */
  lemma LinearizationKeepsOrder(h: Graph, rank: Name -> nat, u: Name)
    requires Ranked(h, rank) && u in h && Linearization(h, rank, u).Ok?
    ensures NoDup(Linearization(h, rank, u).value)
    ensures RespectsSeq(Linearization(h, rank, u).value, Parents(h[u]))
    ensures forall p :: p in Parents(h[u]) ==>
              Linearization(h, rank, p).Ok? && RespectsSeq(Linearization(h, rank, u).value, Linearization(h, rank, p).value)
  {
    var ps := Parents(h[u]);
    var ms := ParentOrders(h, rank, u).value;
    var inputs := MroInputs(u, ms, ps);
    var r := Linearization(h, rank, u).value;
    LinearizeAllPointwise(h, rank, ps, rank(u));
    MergeSound(inputs);
    assert ps in inputs;
    forall p | p in ps ensures Linearization(h, rank, p).Ok? && RespectsSeq(r, Linearization(h, rank, p).value) {
      var i :| 0 <= i < |ps| && ps[i] == p;
      assert inputs[i + 1] == ms[i];
      assert ms[i] in inputs;
    }
  }

  /** What `mro` holds when it succeeds: `u` and every unit in the order of one
      of its parents (each parent included, as it heads its own order), and
      nothing else. */
  lemma LinearizationContents(h: Graph, rank: Name -> nat, u: Name, x: Name)
    requires Ranked(h, rank) && u in h && Linearization(h, rank, u).Ok?
    ensures ParentOrders(h, rank, u).Ok?
    ensures x in Linearization(h, rank, u).value <==>
              x == u || exists m :: m in ParentOrders(h, rank, u).value && x in m
  {
    LinearizeAllPointwise(h, rank, Parents(h[u]), rank(u));
    if x in Linearization(h, rank, u).value {
      OrderMembersFromInputs(h, rank, u, x);
    }
    if x == u || exists m :: m in ParentOrders(h, rank, u).value && x in m {
      InputMembersInOrder(h, rank, u, x);
    }
  }

  /** Every unit of the order of `u` is `u` or in the order of a parent. */
  lemma OrderMembersFromInputs(h: Graph, rank: Name -> nat, u: Name, x: Name)
    requires Ranked(h, rank) && u in h && Linearization(h, rank, u).Ok? && ParentOrders(h, rank, u).Ok?
    requires x in Linearization(h, rank, u).value
    ensures x == u || exists m :: m in ParentOrders(h, rank, u).value && x in m
  {
    var ps := Parents(h[u]);
    var ms := ParentOrders(h, rank, u).value;
    var inputs := MroInputs(u, ms, ps);
    LinearizeAllPointwise(h, rank, ps, rank(u));
    assert Linearization(h, rank, u) == Merge(inputs);
    MergeSound(inputs);
    var k :| 0 <= k < |inputs| && x in inputs[k];
    if 1 <= k <= |ms| {
      assert inputs[k] == ms[k - 1];
      assert ms[k - 1] in ms;
    } else if k > |ms| {
      assert inputs[k] == ps;
      var i :| 0 <= i < |ps| && ps[i] == x;
      assert Linearization(h, rank, ps[i]) == Ok(ms[i]);
      LinearizationStartsWithUnit(h, rank, x);
      assert x in ms[i] && ms[i] in ms;
    }
  }

  /** `u` and every unit in the order of a parent are in the order of `u`. */
  lemma InputMembersInOrder(h: Graph, rank: Name -> nat, u: Name, x: Name)
    requires Ranked(h, rank) && u in h && Linearization(h, rank, u).Ok? && ParentOrders(h, rank, u).Ok?
    requires x == u || exists m :: m in ParentOrders(h, rank, u).value && x in m
    ensures x in Linearization(h, rank, u).value
  {
    var ps := Parents(h[u]);
    var ms := ParentOrders(h, rank, u).value;
    var inputs := MroInputs(u, ms, ps);
    assert Linearization(h, rank, u) == Merge(inputs);
    MergeSound(inputs);
    if x == u {
      assert x in inputs[0];
    } else {
      var m :| m in ms && x in m;
      var i :| 0 <= i < |ms| && ms[i] == m;
      assert inputs[i + 1] == m;
    }
  }

  /** Monotonicity over every ancestor: each unit in the order of `u` has an
      order of its own, and the order of `u` keeps it. */
  lemma {:induction false} LinearizationKeepsAncestorOrders(h: Graph, rank: Name -> nat, u: Name, x: Name)
    requires Ranked(h, rank) && u in h && Linearization(h, rank, u).Ok?
    requires x in Linearization(h, rank, u).value
    ensures x in h && Linearization(h, rank, x).Ok?
    ensures RespectsSeq(Linearization(h, rank, u).value, Linearization(h, rank, x).value)
    decreases rank(u)
  {
    var l := Linearization(h, rank, u).value;
    LinearizationKeepsOrder(h, rank, u);
    if x == u {
      RespectsSelf(l);
    } else {
      LinearizationContents(h, rank, u, x);
      var ps := Parents(h[u]);
      assert forall p :: p in ps ==> p in h && rank(p) < rank(u);
      LinearizeAllPointwise(h, rank, ps, rank(u));
      var ms := ParentOrders(h, rank, u).value;
      var m :| m in ms && x in m;
      var i :| 0 <= i < |ms| && ms[i] == m;
      assert Linearization(h, rank, ps[i]) == Ok(m);
      LinearizationKeepsAncestorOrders(h, rank, ps[i], x);
      RespectsSeqTrans(l, m, Linearization(h, rank, x).value);
    }
  }

  /** `mro` throws `IndeterminateHierarchy` exactly when a parent's order does,
      or when no order of the units keeps the seed, every parent's order and
      the local precedence list all at once. */
  lemma LinearizationSucceedsIff(h: Graph, rank: Name -> nat, u: Name)
    requires Ranked(h, rank) && u in h
    ensures Linearization(h, rank, u).Ok? <==>
              ParentOrders(h, rank, u).Ok? &&
              exists l :: Respects(l, MroInputs(u, ParentOrders(h, rank, u).value, Parents(h[u])))
  {
    if ParentOrders(h, rank, u).Ok? {
      MergeSucceedsIff(MroInputs(u, ParentOrders(h, rank, u).value, Parents(h[u])));
    }
  }

  /** Given the orders `ms` of the parents of `u`, in order, the order of `u`
      is their merge. */
  lemma LinearizationOfParentOrders(h: Graph, rank: Name -> nat, u: Name, ms: Seqs)
    requires Ranked(h, rank) && u in h && |ms| == |Parents(h[u])|
    requires forall j :: 0 <= j < |ms| ==> Linearization(h, rank, Parents(h[u])[j]) == Ok(ms[j])
    ensures Linearization(h, rank, u) == Merge(MroInputs(u, ms, Parents(h[u])))
  {
    var ps := Parents(h[u]);
    LinearizeAllPointwise(h, rank, ps, rank(u));
    var os := LinearizeAll(h, rank, ps, rank(u)).value;
    assert |os| == |ms| && forall j :: 0 <= j < |ms| ==> os[j] == ms[j];
    assert os == ms;
  }

  // ---------------------------------------------------------------------------
  // The memoized computation

  /** One step of `array_map`: the orders from position `i` on are the order
      of `ps[i]` followed by the orders after it, or its exception. */
  lemma LinearizeAllStep(h: Graph, rank: Name -> nat, ps: seq<Name>, i: nat, bound: nat, done: Seqs)
    requires Ranked(h, rank) && (forall p :: p in ps ==> p in h && rank(p) < bound) && i < |ps|
    ensures Linearization(h, rank, ps[i]).Err? ==> Prepend(done, LinearizeAll(h, rank, ps[i..], bound)).Err?
    ensures Linearization(h, rank, ps[i]).Ok? ==>
              Prepend(done, LinearizeAll(h, rank, ps[i..], bound)) ==
              Prepend(done + [Linearization(h, rank, ps[i]).value], LinearizeAll(h, rank, ps[i + 1..], bound))
  {
    assert ps[i..][0] == ps[i] && ps[i..][1..] == ps[i + 1..];
    var rest := LinearizeAll(h, rank, ps[i + 1..], bound);
    if Linearization(h, rank, ps[i]).Ok? && rest.Ok? {
      var m := Linearization(h, rank, ps[i]).value;
      assert done + ([m] + rest.value) == (done + [m]) + rest.value;
    }
  }

  /** The static `$cache` of `mro` together with the hierarchy it reads. Every
      cached entry is the order a fresh computation gives. */
  class Linearizer {
    const h: Graph
    ghost const rank: Name -> nat
    var cache: map<Name, seq<Name>>

    ghost predicate Valid()
      reads this
    {
      Ranked(h, rank) &&
      forall n :: n in cache ==> n in h && Linearization(h, rank, n) == Ok(cache[n])
    }

    constructor (h: Graph, ghost rank: Name -> nat)
      requires Ranked(h, rank)
      ensures Valid() && this.h == h && this.rank == rank && cache == map[]
    {
      this.h := h;
      this.rank := rank;
      cache := map[];
    }

    /** `mro`: the cached order when there is one, otherwise the orders of the
        parents (through this same cache), merged, and stored only on success.
        A cache hit returns what a fresh computation would. */
    method Mro(u: Name) returns (r: Result<seq<Name>, Error>)
      requires Valid() && u in h
      modifies this
      ensures Valid()
      ensures r == Linearization(h, rank, u)
      ensures Extends(old(cache), cache)
      ensures r.Ok? ==> u in cache
      decreases rank(u), 1
    {
      if u in cache {
        return Ok(cache[u]);
      }
      var ms := ParentMros(u);
      if ms.Err? {
        return Err(IndeterminateHierarchy);
      }
      r := MergeSeqs(MroInputs(u, ms.value, Parents(h[u])));
      if r.Ok? {
        cache := cache[u := r.value];
      }
    }

    /** `array_map('self::mro', $parents)`: the orders of the parents of `u`,
        in order, each through the cache; the first exception aborts. */
    method ParentMros(u: Name) returns (r: Result<Seqs, Error>)
      requires Valid() && u in h
      modifies this
      ensures Valid()
      ensures r == ParentOrders(h, rank, u)
      ensures Extends(old(cache), cache)
      decreases rank(u), 0
    {
      var ps := Parents(h[u]);
      assert forall p :: p in ps ==> p in h && rank(p) < rank(u);
      var ms: Seqs := [];
      var i := 0;
      assert ps[i..] == ps;
      PrependNothing(ParentOrders(h, rank, u));
      while i < |ps|
        invariant Valid()
        invariant 0 <= i <= |ps|
        invariant ParentOrders(h, rank, u) == Prepend(ms, LinearizeAll(h, rank, ps[i..], rank(u)))
        invariant Extends(old(cache), cache)
      {
        LinearizeAllStep(h, rank, ps, i, rank(u), ms);
        var m := Mro(ps[i]);
        if m.Err? {
          return Err(IndeterminateHierarchy);
        }
        ms, i := ms + [m.value], i + 1;
      }
      assert ps[i..] == [];
      assert ms + [] == ms;
      return Ok(ms);
    }
  }
}
