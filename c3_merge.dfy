/** The C3 merge of lib/C3Linearization.php: `notHead`, `merge`, and what is
    proved about them. Sequences of unit names stand for the arrays of
    ReflectionClass objects; units are compared by name. */
module C3Merge {
  import opened Wrappers
  import opened Hierarchy

  /** A list of input sequences, as `merge` receives it. */
  type Seqs = seq<seq<Name>>

  // ---------------------------------------------------------------------------
  // Sequences and orders

  /** The number of names still to be placed: the sum of the lengths. */
  function TotalLength(ss: Seqs): nat {
    if ss == [] then 0 else |ss[0]| + TotalLength(ss[1..])
  }

  /** Every name that occurs in some sequence of `ss`. */
  function Elems(ss: Seqs): (r: set<Name>)
    ensures forall x :: x in r <==> exists k :: 0 <= k < |ss| && x in ss[k]
  {
    if ss == [] then {}
    else
      var rest := Elems(ss[1..]);
      assert forall x :: x in rest <==> exists k :: 1 <= k < |ss| && x in ss[k] by {
        forall x | x in rest ensures exists k :: 1 <= k < |ss| && x in ss[k] {
          var k :| 0 <= k < |ss[1..]| && x in ss[1..][k];
          assert x in ss[k + 1];
        }
        forall x, k | 1 <= k < |ss| && x in ss[k] ensures x in rest {
          assert x in ss[1..][k - 1];
        }
      }
      (set x | x in ss[0]) + rest
  }

  predicate NoDup(s: seq<Name>) {
    forall i, j :: 0 <= i < j < |s| ==> s[i] != s[j]
  }

  /** The position of the first occurrence of `x` in `l`. */
  function IndexOf(l: seq<Name>, x: Name): (i: nat)
    requires x in l
    ensures i < |l| && l[i] == x
  {
    if l[0] == x then 0 else IndexOf(l[1..], x) + 1
  }

  /** `IndexOf` finds the first occurrence. */
  lemma {:induction false} IndexOfFirst(l: seq<Name>, x: Name)
    requires x in l
    ensures x !in l[..IndexOf(l, x)]
  {
    if l[0] != x {
      IndexOfFirst(l[1..], x);
      assert l[..IndexOf(l, x)] == [l[0]] + l[1..][..IndexOf(l[1..], x)];
    }
  }

  /** `x` comes before `y` in the ordering `l`. */
  predicate Before(l: seq<Name>, x: Name, y: Name) {
    x in l && y in l && IndexOf(l, x) < IndexOf(l, y)
  }

  /** `l` places the elements of `s` in the order `s` has them. */
  predicate RespectsSeq(l: seq<Name>, s: seq<Name>) {
    forall i, j :: 0 <= i < j < |s| ==> Before(l, s[i], s[j])
  }

  /** `l` places the elements of every input sequence in that sequence's order. */
  predicate Respects(l: seq<Name>, ss: Seqs) {
    forall s :: s in ss ==> RespectsSeq(l, s)
  }

  predicate AllNonEmpty(ss: Seqs) {
    forall k :: 0 <= k < |ss| ==> |ss[k]| > 0
  }

  /** `x` occurs in `s` after its first position (`array_slice($seq, 1)`). */
  predicate InTail(x: Name, s: seq<Name>) {
    |s| > 0 && x in s[1..]
  }

  // ---------------------------------------------------------------------------
  // The steps of one merge round

  /** `notHead`: whether `cand` occurs in the tail of some sequence. */
  function NotHead(cand: Name, seqs: Seqs): bool {
    if seqs == [] then false
    else InTail(cand, seqs[0]) || NotHead(cand, seqs[1..])
  }

  /** `notHead` answers whether some sequence holds `cand` past its head. */
  lemma {:induction false} NotHeadSpec(cand: Name, seqs: Seqs)
    ensures NotHead(cand, seqs) <==> exists k :: 0 <= k < |seqs| && InTail(cand, seqs[k])
  {
    if seqs != [] {
      NotHeadSpec(cand, seqs[1..]);
      if NotHead(cand, seqs[1..]) {
        var k :| 0 <= k < |seqs[1..]| && InTail(cand, seqs[1..][k]);
        assert InTail(cand, seqs[k + 1]);
      }
      forall k | 1 <= k < |seqs| && InTail(cand, seqs[k]) ensures NotHead(cand, seqs[1..]) {
        assert InTail(cand, seqs[1..][k - 1]);
      }
    }
  }

  /** The candidate search of one round, from position `i` on: the position of
      the first sequence whose head is in no sequence's tail, or None. */
  function FindCandidateFrom(seqs: Seqs, i: nat): (r: Option<nat>)
    requires i <= |seqs| && AllNonEmpty(seqs)
    ensures r.Some? ==> i <= r.value < |seqs|
    decreases |seqs| - i
  {
    if i == |seqs| then None
    else if !NotHead(seqs[i][0], seqs) then Some(i)
    else FindCandidateFrom(seqs, i + 1)
  }

  /** The search finds the first eligible head from `i` on, and finds none
      exactly when every head from `i` on occurs in some tail. */
  lemma {:induction false} FindCandidateFromSpec(seqs: Seqs, i: nat)
    requires i <= |seqs| && AllNonEmpty(seqs)
    ensures FindCandidateFrom(seqs, i).Some? ==>
              !NotHead(seqs[FindCandidateFrom(seqs, i).value][0], seqs) &&
              forall j :: i <= j < FindCandidateFrom(seqs, i).value ==> NotHead(seqs[j][0], seqs)
    ensures FindCandidateFrom(seqs, i).None? <==> forall k :: i <= k < |seqs| ==> NotHead(seqs[k][0], seqs)
    decreases |seqs| - i
  {
    if i < |seqs| && NotHead(seqs[i][0], seqs) {
      FindCandidateFromSpec(seqs, i + 1);
    }
  }

  function FindCandidate(seqs: Seqs): Option<nat>
    requires AllNonEmpty(seqs)
  {
    FindCandidateFrom(seqs, 0)
  }

  /** `array_values(array_filter($seqs, 'count'))`: the non-empty sequences, in order. */
  function NonEmpty(ss: Seqs): (r: Seqs)
    ensures AllNonEmpty(r)
  {
    if ss == [] then []
    else if |ss[0]| > 0 then
      var r := [ss[0]] + NonEmpty(ss[1..]);
      assert r[1..] == NonEmpty(ss[1..]);
      r
    else NonEmpty(ss[1..])
  }

  /** Filtering keeps the total length, and keeps a list with no empty sequence as it is. */
  lemma {:induction false} NonEmptyFacts(ss: Seqs)
    ensures TotalLength(NonEmpty(ss)) == TotalLength(ss)
    ensures AllNonEmpty(ss) ==> NonEmpty(ss) == ss
  {
    if ss != [] {
      NonEmptyFacts(ss[1..]);
      assert AllNonEmpty(ss) ==> AllNonEmpty(ss[1..]);
      assert ss == [ss[0]] + ss[1..];
    }
  }

  /** The filtered list holds exactly the non-empty sequences of the input. */
  lemma {:induction false} NonEmptyMembers(ss: Seqs)
    ensures forall s :: s in NonEmpty(ss) <==> s in ss && |s| > 0
  {
    if ss != [] {
      NonEmptyMembers(ss[1..]);
      assert ss == [ss[0]] + ss[1..];
    }
  }

  /** Removes `c` from the front of `s` when it is there. */
  function DropHead(c: Name, s: seq<Name>): seq<Name> {
    if |s| > 0 && s[0] == c then s[1..] else s
  }

  /** The `foreach ($seqs as &$seq)` of one round: `c` leaves the head of every
      sequence that starts with it. */
  function RemoveHead(c: Name, ss: Seqs): (r: Seqs)
    ensures |r| == |ss|
  {
    if ss == [] then [] else [DropHead(c, ss[0])] + RemoveHead(c, ss[1..])
  }

  /** A round strips `c` from exactly the sequences it heads; the total length
      shrinks, strictly when some sequence starts with `c`. */
  lemma {:induction false} RemoveHeadFacts(c: Name, ss: Seqs)
    ensures forall k :: 0 <= k < |ss| ==> RemoveHead(c, ss)[k] == DropHead(c, ss[k])
    ensures TotalLength(RemoveHead(c, ss)) <= TotalLength(ss)
    ensures (exists k :: 0 <= k < |ss| && |ss[k]| > 0 && ss[k][0] == c) ==>
              TotalLength(RemoveHead(c, ss)) < TotalLength(ss)
  {
    if ss != [] {
      RemoveHeadFacts(c, ss[1..]);
      var r := RemoveHead(c, ss);
      assert r[1..] == RemoveHead(c, ss[1..]);
      if exists k :: 0 <= k < |ss| && |ss[k]| > 0 && ss[k][0] == c {
        var k :| 0 <= k < |ss| && |ss[k]| > 0 && ss[k][0] == c;
        if k > 0 { assert ss[1..][k - 1] == ss[k]; }
      }
    }
  }

  // ---------------------------------------------------------------------------
  // The merge

  /** `merge`: drop the empty sequences; if none is left the result is complete;
      otherwise place the first eligible head and merge what remains, or throw
      `IndeterminateHierarchy` when no head is eligible. */
  function Merge(seqs: Seqs): (r: Result<seq<Name>, Error>)
    ensures r.Err? ==> r.error == IndeterminateHierarchy
    decreases TotalLength(seqs)
  {
    var live := NonEmpty(seqs);
    if live == [] then Ok([])
    else
      match FindCandidate(live)
      case None => Err(IndeterminateHierarchy)
      case Some(k) =>
        var c := live[k][0];
        NonEmptyFacts(seqs);
        RemoveHeadFacts(c, live);
        Prepend([c], Merge(RemoveHead(c, live)))
  }

  /** One round of the merge, seen from a list that is already filtered. */
  lemma MergeRound(seqs: Seqs, k: nat)
    requires AllNonEmpty(seqs) && seqs != [] && FindCandidate(seqs) == Some(k)
    ensures Merge(seqs) == Prepend([seqs[k][0]], Merge(NonEmpty(RemoveHead(seqs[k][0], seqs))))
  {
    var next := RemoveHead(seqs[k][0], seqs);
    NonEmptyFacts(seqs);
    NonEmptyFacts(NonEmpty(next));
    assert Merge(next) == Merge(NonEmpty(next));
  }

  /** One round of the merge, read forwards: when `live` is what filtering
      leaves, its first eligible head is at `k`, and the round leaves `next`,
      the merge is that head followed by the merge `rest` of `next`. */
  lemma MergeStep(seqs: Seqs, live: Seqs, k: nat, next: Seqs, rest: seq<Name>, merged: seq<Name>)
    requires NonEmpty(seqs) == live && live != [] && FindCandidate(live) == Some(k)
    requires RemoveHead(live[k][0], live) == next && Merge(next) == Ok(rest)
    requires merged == [live[k][0]] + rest
    ensures Merge(seqs) == Ok(merged)
  {
  }

  /** A merge with nothing left to place is complete. */
  lemma MergeDone(seqs: Seqs)
    requires NonEmpty(seqs) == []
    ensures Merge(seqs) == Ok([])
  {
  }

  /** Filtering the input first does not change the merge. */
  lemma MergeFiltered(seqs: Seqs)
    ensures Merge(seqs) == Merge(NonEmpty(seqs))
  {
    NonEmptyFacts(NonEmpty(seqs));
  }

  /** The in-place pass `foreach ($seqs as &$seq)` that strips `c` from the
      front of every sequence starting with it. */
  method DropHeads(c: Name, input: Seqs) returns (seqs: Seqs)
    requires AllNonEmpty(input)
    ensures seqs == RemoveHead(c, input)
  {
    seqs := input;
    var k := 0;
    while k < |seqs|
      invariant 0 <= k <= |seqs| == |input|
      invariant forall j :: 0 <= j < k ==> seqs[j] == DropHead(c, input[j])
      invariant forall j :: k <= j < |seqs| ==> seqs[j] == input[j]
    {
      if c == seqs[k][0] {
        seqs := seqs[k := seqs[k][1..]];
      }
      k := k + 1;
    }
    RemoveHeadFacts(c, input);
  }

  /** The C3 merge in the loop shape of `merge`: a `while` loop over the
      filtered list, a candidate search that breaks at the first eligible
      head, and an in-place pass that strips the chosen head. Unlike the PHP
      text it has no by-reference leak between rounds (`MergeAsWritten`). */
  method MergeSeqs(input: Seqs) returns (r: Result<seq<Name>, Error>)
    ensures r == Merge(input)
  {
    var res: seq<Name> := [];
    var seqs := NonEmpty(input);
    MergeFiltered(input);
    assert Merge(input) == Prepend(res, Merge(seqs)) by {
      if Merge(seqs).Ok? { assert res + Merge(seqs).value == Merge(seqs).value; }
    }
    while seqs != []
      invariant AllNonEmpty(seqs)
      invariant Merge(input) == Prepend(res, Merge(seqs))
      decreases TotalLength(seqs)
    {
      NonEmptyFacts(seqs);
      var cand: Option<Name> := None;
      var i := 0;
      while i < |seqs|
        invariant 0 <= i <= |seqs|
        invariant cand.None?
        invariant FindCandidate(seqs) == FindCandidateFrom(seqs, i)
      {
        cand := Some(seqs[i][0]);
        if NotHead(seqs[i][0], seqs) {
          cand := None;
        } else {
          break;
        }
        i := i + 1;
      }
      if cand.None? {
        return Err(IndeterminateHierarchy);
      }
      var c := cand.value;
      assert FindCandidate(seqs) == Some(i) && c == seqs[i][0];
      assert res + [c] == res + [c] && (res + [c])[..|res|] == res;
      res := res + [c];
      ghost var before := seqs;
      seqs := DropHeads(c, seqs);
      RemoveHeadFacts(c, before);
      NonEmptyFacts(seqs);
      MergeRound(before, i);
      PrependPrepend(res[..|res| - 1], [c], Merge(NonEmpty(seqs)));
      seqs := NonEmpty(seqs);
    }
    assert res + [] == res;
    return Ok(res);
  }

  // ---------------------------------------------------------------------------
  // What the merge promises

  lemma ElemsNonEmpty(ss: Seqs)
    ensures Elems(NonEmpty(ss)) == Elems(ss)
  {
    var live := NonEmpty(ss);
    NonEmptyMembers(ss);
    forall x | x in Elems(ss) ensures x in Elems(live) {
      var k :| 0 <= k < |ss| && x in ss[k];
      assert ss[k] in live;
      var k' :| 0 <= k' < |live| && live[k'] == ss[k];
    }
    forall x | x in Elems(live) ensures x in Elems(ss) {
      var k :| 0 <= k < |live| && x in live[k];
      assert live[k] in ss;
      var k' :| 0 <= k' < |ss| && ss[k'] == live[k];
    }
  }

  /** After a round, the chosen head occurs nowhere, and every other name is still there. */
  lemma RemoveHeadElems(c: Name, live: Seqs)
    requires AllNonEmpty(live) && !NotHead(c, live)
    ensures forall x :: x in Elems(RemoveHead(c, live)) <==> x in Elems(live) && x != c
  {
    var next := RemoveHead(c, live);
    RemoveHeadFacts(c, live);
    NotHeadSpec(c, live);
    forall x | x in Elems(next) ensures x in Elems(live) && x != c {
      var k :| 0 <= k < |next| && x in next[k];
      var j :| 0 <= j < |next[k]| && next[k][j] == x;
      if live[k][0] == c {
        assert live[k][j + 1] == x;
        assert InTail(x, live[k]);
      } else {
        assert live[k][j] == x;
        if j > 0 { assert InTail(x, live[k]); }
      }
    }
    forall x | x in Elems(live) && x != c ensures x in Elems(next) {
      var k :| 0 <= k < |live| && x in live[k];
      var j :| 0 <= j < |live[k]| && live[k][j] == x;
      if live[k][0] == c {
        assert next[k][j - 1] == x;
      } else {
        assert next[k] == live[k];
      }
    }
  }

  lemma IndexOfCons(c: Name, rest: seq<Name>, x: Name)
    requires x == c || x in rest
    ensures x in [c] + rest
    ensures IndexOf([c] + rest, x) == if x == c then 0 else 1 + IndexOf(rest, x)
  {
    assert ([c] + rest)[0] == c;
    assert ([c] + rest)[1..] == rest;
  }

  lemma NoDupCons(c: Name, rest: seq<Name>)
    requires NoDup(rest) && c !in rest
    ensures NoDup([c] + rest)
  {
    var r := [c] + rest;
    forall i, j | 0 <= i < j < |r| ensures r[i] != r[j] {
      assert r[j] == rest[j - 1];
      if i > 0 { assert r[i] == rest[i - 1]; }
    }
  }

  /** The merged order has no duplicates and holds exactly the names of the inputs. */
  lemma {:induction false} MergeContents(seqs: Seqs)
    requires Merge(seqs).Ok?
    ensures NoDup(Merge(seqs).value)
    ensures forall x :: x in Merge(seqs).value <==> x in Elems(seqs)
    decreases TotalLength(seqs)
  {
    var live := NonEmpty(seqs);
    ElemsNonEmpty(seqs);
    if live != [] {
      FindCandidateFromSpec(live, 0);
      var c := live[FindCandidate(live).value][0];
      var next := RemoveHead(c, live);
      NonEmptyFacts(seqs);
      RemoveHeadFacts(c, live);
      MergeContents(next);
      RemoveHeadElems(c, live);
      var rest := Merge(next).value;
      var r := Merge(seqs).value;
      assert r == [c] + rest;
      var k :| 0 <= k < |live| && c == live[k][0];
      assert c in Elems(live) by { assert c in live[k]; }
      NoDupCons(c, rest);
    }
  }

  /** A suffix of a sequence keeps the order constraints of the sequence. */
  lemma RespectsTail(l: seq<Name>, s: seq<Name>)
    requires |s| > 0 && RespectsSeq(l, s)
    ensures RespectsSeq(l, s[1..])
  {
    forall i, j | 0 <= i < j < |s[1..]| ensures Before(l, s[1..][i], s[1..][j]) {
      assert s[1..][i] == s[i + 1] && s[1..][j] == s[j + 1];
    }
  }

  /** One round seen from one input sequence `s`: when `c` is not in its tail,
      all its other names are in `rest`, and `rest` keeps the order of what is
      left of `s`, then `[c] + rest` keeps the order of `s`. */
  lemma RespectsAfterRound(c: Name, rest: seq<Name>, s: seq<Name>)
    requires !InTail(c, s)
    requires forall x :: x in s && x != c ==> x in rest
    requires RespectsSeq(rest, DropHead(c, s))
    ensures RespectsSeq([c] + rest, s)
  {
    var s' := DropHead(c, s);
    forall i, j | 0 <= i < j < |s| ensures Before([c] + rest, s[i], s[j]) {
      assert s[j] != c by { assert InTail(s[j], s); }
      IndexOfCons(c, rest, s[j]);
      if s[i] == c {
        IndexOfCons(c, rest, c);
      } else {
        if s[0] == c {
          assert s'[i - 1] == s[i] && s'[j - 1] == s[j];
        } else {
          assert s' == s;
        }
        IndexOfCons(c, rest, s[i]);
      }
    }
  }

  /** Keeping an order is transitive: an order that keeps `m` keeps every
      sequence `m` keeps. */
  lemma RespectsSeqTrans(l: seq<Name>, m: seq<Name>, s: seq<Name>)
    requires RespectsSeq(l, m) && RespectsSeq(m, s)
    ensures RespectsSeq(l, s)
  {
    forall i, j | 0 <= i < j < |s| ensures Before(l, s[i], s[j]) {
      assert Before(m, s[i], s[j]);
      var a, b := IndexOf(m, s[i]), IndexOf(m, s[j]);
      assert Before(l, m[a], m[b]);
    }
  }

  /** An order without duplicates keeps itself. */
  lemma RespectsSelf(l: seq<Name>)
    requires NoDup(l)
    ensures RespectsSeq(l, l)
  {
    forall i, j | 0 <= i < j < |l| ensures Before(l, l[i], l[j]) {
      assert IndexOf(l, l[i]) == i && IndexOf(l, l[j]) == j;
    }
  }

  /** If `x` comes before `y` in an input sequence, it comes before `y` in the merge. */
  lemma {:induction false} MergeRespectsSeq(seqs: Seqs, s: seq<Name>)
    requires s in seqs && Merge(seqs).Ok?
    ensures RespectsSeq(Merge(seqs).value, s)
    decreases TotalLength(seqs)
  {
    if |s| > 1 {
      var live := NonEmpty(seqs);
      NonEmptyMembers(seqs);
      assert s in live;
      FindCandidateFromSpec(live, 0);
      var c := live[FindCandidate(live).value][0];
      var next := RemoveHead(c, live);
      NonEmptyFacts(seqs);
      RemoveHeadFacts(c, live);
      var k :| 0 <= k < |live| && live[k] == s;
      var s' := next[k];
      assert s' == DropHead(c, s);
      MergeRespectsSeq(next, s');
      MergeContents(next);
      RemoveHeadElems(c, live);
      var rest := Merge(next).value;
      var r := Merge(seqs).value;
      assert r == [c] + rest;
      forall x | x in s && x != c ensures x in rest {
        assert x in Elems(live) by { assert x in live[k]; }
      }
      assert !InTail(c, s) by { NotHeadSpec(c, live); }
      RespectsAfterRound(c, rest, s);
    }
  }

  /** Soundness: the merge is a duplicate-free order of exactly the input names
      that keeps the order of every input sequence. */
  lemma MergeSound(seqs: Seqs)
    requires Merge(seqs).Ok?
    ensures NoDup(Merge(seqs).value)
    ensures forall x :: x in Merge(seqs).value <==> x in Elems(seqs)
    ensures Respects(Merge(seqs).value, seqs)
  {
    MergeContents(seqs);
    forall s | s in seqs ensures RespectsSeq(Merge(seqs).value, s) {
      MergeRespectsSeq(seqs, s);
    }
  }

  /** The index of a head that comes earliest in `l`, among the first `n` sequences. */
  function EarliestHead(live: Seqs, l: seq<Name>, n: nat): (m: nat)
    requires AllNonEmpty(live) && 0 < n <= |live|
    requires forall k :: 0 <= k < |live| ==> live[k][0] in l
    ensures m < n && forall k :: 0 <= k < n ==> IndexOf(l, live[m][0]) <= IndexOf(l, live[k][0])
  {
    if n == 1 then 0
    else
      var m := EarliestHead(live, l, n - 1);
      if IndexOf(l, live[n - 1][0]) < IndexOf(l, live[m][0]) then n - 1 else m
  }

  /** When some order respects every remaining sequence, a round finds a candidate:
      the head that comes earliest in that order is in no tail. */
  lemma CandidateExists(live: Seqs, l: seq<Name>)
    requires AllNonEmpty(live) && live != [] && Respects(l, live)
    ensures FindCandidate(live).Some?
  {
    if exists k :: 0 <= k < |live| && live[k][0] !in l {
      // a head missing from `l` is in no tail, since `l` holds every tail name
      var k :| 0 <= k < |live| && live[k][0] !in l;
      forall k2 | 0 <= k2 < |live| ensures !InTail(live[k][0], live[k2]) {
        forall j | 1 <= j < |live[k2]| ensures live[k2][j] != live[k][0] {
          assert live[k2] in live;
          assert Before(l, live[k2][0], live[k2][j]);
        }
      }
      NotHeadSpec(live[k][0], live);
      FindCandidateFromSpec(live, 0);
    } else {
      // otherwise the head that comes earliest in `l` is in no tail
      var m := EarliestHead(live, l, |live|);
      forall k2 | 0 <= k2 < |live| ensures !InTail(live[m][0], live[k2]) {
        forall j | 1 <= j < |live[k2]| ensures live[k2][j] != live[m][0] {
          assert live[k2] in live;
          assert Before(l, live[k2][0], live[k2][j]);
        }
      }
      NotHeadSpec(live[m][0], live);
      FindCandidateFromSpec(live, 0);
    }
  }

  /** Completeness: when some order respects every input sequence, the merge
      does not throw. */
  lemma {:induction false} MergeComplete(seqs: Seqs, l: seq<Name>)
    requires Respects(l, seqs)
    ensures Merge(seqs).Ok?
    decreases TotalLength(seqs)
  {
    var live := NonEmpty(seqs);
    NonEmptyMembers(seqs);
    if live != [] {
      CandidateExists(live, l);
      var c := live[FindCandidate(live).value][0];
      var next := RemoveHead(c, live);
      NonEmptyFacts(seqs);
      RemoveHeadFacts(c, live);
      forall s | s in next ensures RespectsSeq(l, s) {
        var k :| 0 <= k < |next| && next[k] == s;
        assert live[k] in live;
        if live[k][0] == c { RespectsTail(l, live[k]); }
      }
      MergeComplete(next, l);
    }
  }

  /** `merge` throws `IndeterminateHierarchy` exactly when no order of the names
      keeps the order of every input sequence. */
  lemma MergeSucceedsIff(seqs: Seqs)
    ensures Merge(seqs).Ok? <==> exists l :: Respects(l, seqs)
  {
    if Merge(seqs).Ok? {
      MergeSound(seqs);
    }
    if exists l :: Respects(l, seqs) {
      var l :| Respects(l, seqs);
      MergeComplete(seqs, l);
    }
  }
  // ---------------------------------------------------------------------------
  // The merge as the PHP text runs it

  /** Copying one sequence over the last slot brings in no new name, keeps
      every sequence non-empty, and keeps the copied head. */
  lemma ElemsCopyLast(cur: Seqs, j: nat)
    requires j < |cur| && AllNonEmpty(cur)
    ensures AllNonEmpty(cur[|cur| - 1 := cur[j]])
    ensures cur[j][0] in Elems(cur[|cur| - 1 := cur[j]])
    ensures Elems(cur[|cur| - 1 := cur[j]]) <= Elems(cur)
  {
    var next := cur[|cur| - 1 := cur[j]];
    forall x | x in Elems(next) ensures x in Elems(cur) {
      var k :| 0 <= k < |next| && x in next[k];
      if k == |cur| - 1 {
        assert x in cur[j];
      } else {
        assert x in cur[k];
      }
    }
    assert cur[j][0] in next[j];
  }

  /** The candidate search of one round as the PHP text runs it. The strip
      pass `foreach ($seqs as &$seq)` leaves `$seq` bound by reference to the
      last slot of `$seqs`, and that binding survives the filtering of the next
      round when the last sequence is not empty (`leak`). The by-value
      `foreach ($seqs as $seq)` of the search then writes every sequence it
      reads at position `j` into that last slot before `notHead` looks at the
      sequences. The result is the chosen head and the sequences as the search
      leaves them. */
  function ScanAsWritten(cur: Seqs, leak: bool, j: nat): (r: Option<(Name, Seqs)>)
    requires AllNonEmpty(cur) && j <= |cur|
    ensures r.Some? ==> |r.value.1| == |cur| && !NotHead(r.value.0, r.value.1)
    ensures !leak && r.Some? ==> r.value.1 == cur
    decreases |cur| - j
  {
    if j == |cur| then None
    else
      var next := if leak then cur[|cur| - 1 := cur[j]] else cur;
      if !NotHead(cur[j][0], next) then Some((cur[j][0], next))
      else ScanAsWritten(next, leak, j + 1)
  }

  /** The search leaves no empty sequence, picks a name that occurs in what it
      leaves, and brings in no new name. */
  lemma {:induction false} ScanAsWrittenElems(cur: Seqs, leak: bool, j: nat)
    requires AllNonEmpty(cur) && j <= |cur| && ScanAsWritten(cur, leak, j).Some?
    ensures AllNonEmpty(ScanAsWritten(cur, leak, j).value.1)
    ensures ScanAsWritten(cur, leak, j).value.0 in Elems(ScanAsWritten(cur, leak, j).value.1)
    ensures Elems(ScanAsWritten(cur, leak, j).value.1) <= Elems(cur)
    decreases |cur| - j
  {
    var next := if leak then cur[|cur| - 1 := cur[j]] else cur;
    if leak {
      ElemsCopyLast(cur, j);
    } else {
      assert cur[j][0] in cur[j];
    }
    if NotHead(cur[j][0], next) {
      ScanAsWrittenElems(next, leak, j + 1);
    }
  }

  /** Without the leak, the search is the C3 candidate search. */
  lemma {:induction false} ScanWithoutLeak(cur: Seqs, j: nat)
    requires AllNonEmpty(cur) && j <= |cur|
    ensures ScanAsWritten(cur, false, j) ==
              if FindCandidateFrom(cur, j).Some? then Some((cur[FindCandidateFrom(cur, j).value][0], cur)) else None
    decreases |cur| - j
  {
    if j < |cur| && NotHead(cur[j][0], cur) {
      ScanWithoutLeak(cur, j + 1);
    }
  }

  /** One round of `merge` as the PHP text runs it, on sequences that still
      hold a name: the head it places and the sequences its search leaves,
      or None when no head is eligible. `leak` tells whether `$seq` is bound
      to the last slot of `$seqs` on entry to the loop test; that binding
      reaches the filtered list only when the last sequence is not empty. */
  function RoundAsWritten(seqs: Seqs, leak: bool): Option<(Name, Seqs)>
    requires NonEmpty(seqs) != []
  {
    ScanAsWritten(NonEmpty(seqs), leak && seqs != [] && |seqs[|seqs| - 1]| > 0, 0)
  }

  /** A round of the PHP text leaves fewer names to place. */
  lemma FewerNamesAsWritten(seqs: Seqs, leak: bool)
    requires NonEmpty(seqs) != [] && RoundAsWritten(seqs, leak).Some?
    ensures |Elems(RemoveHead(RoundAsWritten(seqs, leak).value.0, RoundAsWritten(seqs, leak).value.1))| < |Elems(seqs)|
  {
    var (c, next) := RoundAsWritten(seqs, leak).value;
    ScanAsWrittenElems(NonEmpty(seqs), leak && seqs != [] && |seqs[|seqs| - 1]| > 0, 0);
    var after, before := Elems(RemoveHead(c, next)), Elems(seqs);
    RemoveHeadElems(c, next);
    ElemsNonEmpty(seqs);
    assert after <= before - {c};
    SubsetCard(after, before - {c});
    assert |before - {c}| == |before| - 1;
  }

  lemma SubsetCard(a: set<Name>, b: set<Name>)
    requires a <= b
    ensures |a| <= |b|
  {
    assert b == a + (b - a);
  }

  /** `merge` as the PHP text runs it. A call starts with `leak` false; every
      later round starts with it true, as the strip pass leaves it. The rounds
      end because each one places a name that then occurs nowhere. */
  function MergeAsWritten(seqs: Seqs, leak: bool): (r: Result<seq<Name>, Error>)
    ensures r.Err? ==> r.error == IndeterminateHierarchy
    decreases |Elems(seqs)|
  {
    if NonEmpty(seqs) == [] then Ok([])
    else
      match RoundAsWritten(seqs, leak)
      case None => Err(IndeterminateHierarchy)
      case Some((c, next)) =>
        FewerNamesAsWritten(seqs, leak);
        Prepend([c], MergeAsWritten(RemoveHead(c, next), true))
  }

  /** One round of the PHP text, read forwards. */
  lemma MergeAsWrittenStep(seqs: Seqs, leak: bool, live: Seqs, bound: bool, c: Name, next: Seqs,
                           rest: seq<Name>, merged: seq<Name>)
    requires seqs != [] && NonEmpty(seqs) == live && live != []
    requires bound == (leak && |seqs[|seqs| - 1]| > 0)
    requires ScanAsWritten(live, bound, 0) == Some((c, next))
    requires MergeAsWritten(RemoveHead(c, next), true) == Ok(rest)
    requires merged == [c] + rest
    ensures MergeAsWritten(seqs, leak) == Ok(merged)
  {
  }

  /** The PHP text with nothing left to place returns what it has placed. */
  lemma MergeAsWrittenDone(seqs: Seqs, leak: bool)
    requires NonEmpty(seqs) == []
    ensures MergeAsWritten(seqs, leak) == Ok([])
  {
  }
}
