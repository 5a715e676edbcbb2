/** The hierarchy that t/C3LinearizationTest.php and t/MethodCombinatorTest.php
    declare (the two files use the same shape, under the prefixes `C3LT_` and
    `MCT_`, dropped here), with the methods of the combinator test, and the
    orders the linearization test expects, proved for the model. */
module TestHierarchy {
  import opened Wrappers
  import opened Hierarchy
  import opened C3Merge
  import opened C3Linearization

  /** Every class and trait of the tests. A trait's methods carry the short
      name of the trait and `_` as prefix, as the tests' combinator subclass
      computes it; a class declares the trait methods it uses. */
  const H: Graph := map[
    "Root" := Unit(None, [], false, {"static_merge", "merge"}),
    "Sub1" := Unit(Some("Root"), [], false, {}),
    "Sub1Sub" := Unit(Some("Sub1"), [], false, {"static_merge", "merge"}),
    "Sub2" := Unit(Some("Root"), [], false, {"static_merge", "merge"}),
    "Trait1" := Unit(None, [], true, {"Trait1_static_merge", "Trait1_merge"}),
    "Trait2" := Unit(None, [], true, {}),
    "SubTrait" := Unit(None, ["Trait1"], true, {"SubTrait_static_merge", "SubTrait_merge", "Trait1_static_merge", "Trait1_merge"}),
    "SubWithTrait1" := Unit(Some("Sub2"), ["Trait1"], false, {"static_merge", "merge", "Trait1_static_merge", "Trait1_merge"}),
    "SubWithTrait2" := Unit(Some("Sub1"), ["Trait2"], false, {}),
    "SubWithTrait3" := Unit(Some("SubWithTrait2"), ["SubTrait"], false, {"static_merge", "merge", "SubTrait_static_merge", "SubTrait_merge", "Trait1_static_merge", "Trait1_merge"})
  ]

  /** The depth of each unit in the hierarchy. */
  function Rank(n: Name): nat {
    if n == "Root" then 0
    else if n == "Sub1" then 1
    else if n == "Sub1Sub" then 2
    else if n == "Sub2" then 1
    else if n == "Trait1" then 0
    else if n == "Trait2" then 0
    else if n == "SubTrait" then 1
    else if n == "SubWithTrait1" then 2
    else if n == "SubWithTrait2" then 2
    else if n == "SubWithTrait3" then 3
    else 0
  }


  lemma RankedAtRoot()
    ensures forall p :: p in Parents(H["Root"]) ==> p in H && Rank(p) < Rank("Root")
  {
  }

  lemma RankedAtSub1()
    ensures forall p :: p in Parents(H["Sub1"]) ==> p in H && Rank(p) < Rank("Sub1")
  {
  }

  lemma RankedAtSub1Sub()
    ensures forall p :: p in Parents(H["Sub1Sub"]) ==> p in H && Rank(p) < Rank("Sub1Sub")
  {
  }

  lemma RankedAtSub2()
    ensures forall p :: p in Parents(H["Sub2"]) ==> p in H && Rank(p) < Rank("Sub2")
  {
  }

  lemma RankedAtTrait1()
    ensures forall p :: p in Parents(H["Trait1"]) ==> p in H && Rank(p) < Rank("Trait1")
  {
  }

  lemma RankedAtTrait2()
    ensures forall p :: p in Parents(H["Trait2"]) ==> p in H && Rank(p) < Rank("Trait2")
  {
  }

  lemma RankedAtSubTrait()
    ensures forall p :: p in Parents(H["SubTrait"]) ==> p in H && Rank(p) < Rank("SubTrait")
  {
  }

  lemma RankedAtSubWithTrait1()
    ensures forall p :: p in Parents(H["SubWithTrait1"]) ==> p in H && Rank(p) < Rank("SubWithTrait1")
  {
  }

  lemma RankedAtSubWithTrait2()
    ensures forall p :: p in Parents(H["SubWithTrait2"]) ==> p in H && Rank(p) < Rank("SubWithTrait2")
  {
  }

  lemma RankedAtSubWithTrait3()
    ensures forall p :: p in Parents(H["SubWithTrait3"]) ==> p in H && Rank(p) < Rank("SubWithTrait3")
  {
  }

  lemma RankedAt(n: Name)
    requires n in H
    ensures forall p :: p in Parents(H[n]) ==> p in H && Rank(p) < Rank(n)
  {
    if n == "Root" { RankedAtRoot(); }
    else if n == "Sub1" { RankedAtSub1(); }
    else if n == "Sub1Sub" { RankedAtSub1Sub(); }
    else if n == "Sub2" { RankedAtSub2(); }
    else if n == "Trait1" { RankedAtTrait1(); }
    else if n == "Trait2" { RankedAtTrait2(); }
    else if n == "SubTrait" { RankedAtSubTrait(); }
    else if n == "SubWithTrait1" { RankedAtSubWithTrait1(); }
    else if n == "SubWithTrait2" { RankedAtSubWithTrait2(); }
    else { assert n == "SubWithTrait3"; RankedAtSubWithTrait3(); }
  }

  /** Parents and traits rank below the units that use them. */
  lemma Acyclic()
    ensures Ranked(H, Rank)
  {
    forall n | n in H
      ensures forall p :: p in Parents(H[n]) ==> p in H && Rank(p) < Rank(n)
    {
      RankedAt(n);
    }
  }

  lemma OrderOfRoot()
    ensures Ranked(H, Rank) && Linearization(H, Rank, "Root") == Ok(["Root"])
  {
    Acyclic();
    LinearizationOfLeaf(H, Rank, "Root");
  }

  /** The merge that computes the order of `Sub1`. */
  lemma LiveSub12()
    ensures NonEmpty([[], ["Root"], ["Root"]]) == [["Root"], ["Root"]]
  {
  }

  lemma PickSub12()
    ensures FindCandidate([["Root"], ["Root"]]) == Some(0)
    ensures ["Root"] == ["Root"] + []
  {
  }

  lemma StripSub12()
    ensures RemoveHead("Root", [["Root"], ["Root"]]) == [[], []]
  {
  }

  lemma LiveSub11()
    ensures NonEmpty([["Sub1"], ["Root"], ["Root"]]) == [["Sub1"], ["Root"], ["Root"]]
  {
  }

  lemma PickSub11()
    ensures FindCandidate([["Sub1"], ["Root"], ["Root"]]) == Some(0)
    ensures ["Sub1", "Root"] == ["Sub1"] + ["Root"]
  {
  }

  lemma StripSub11()
    ensures RemoveHead("Sub1", [["Sub1"], ["Root"], ["Root"]]) == [[], ["Root"], ["Root"]]
  {
  }

  lemma MergeForSub1()
    ensures Merge([["Sub1"], ["Root"], ["Root"]]) == Ok(["Sub1", "Root"])
  {
    MergeDone([[], []]);
    LiveSub12();
    PickSub12();
    StripSub12();
    MergeStep([[], ["Root"], ["Root"]],
              [["Root"], ["Root"]], 0,
              [[], []], [], ["Root"]);
    LiveSub11();
    PickSub11();
    StripSub11();
    MergeStep([["Sub1"], ["Root"], ["Root"]],
              [["Sub1"], ["Root"], ["Root"]], 0,
              [[], ["Root"], ["Root"]], ["Root"], ["Sub1", "Root"]);
  }

  lemma InputsOfSub1()
    ensures MroInputs("Sub1", [["Root"]], ["Root"]) == [["Sub1"], ["Root"], ["Root"]]
  {
  }

  lemma ParentsOfSub1()
    ensures "Sub1" in H && Parents(H["Sub1"]) == ["Root"]
  {
  }

  /** The inputs `mro` merges for `Sub1`. */
  lemma MergeInputsOfSub1()
    ensures Ranked(H, Rank) && Linearization(H, Rank, "Sub1") == Merge([["Sub1"], ["Root"], ["Root"]])
  {
    Acyclic();
    ParentsOfSub1();
    OrderOfRoot();
    LinearizationOfParentOrders(H, Rank, "Sub1", [["Root"]]);
    InputsOfSub1();
  }

  lemma OrderOfSub1()
    ensures Ranked(H, Rank) && Linearization(H, Rank, "Sub1") == Ok(["Sub1", "Root"])
  {
    MergeInputsOfSub1();
    MergeForSub1();
  }

  /** The merge that computes the order of `Sub1Sub`. */
  lemma LiveSub1Sub3()
    ensures NonEmpty([["Root"], []]) == [["Root"]]
  {
  }

  lemma PickSub1Sub3()
    ensures FindCandidate([["Root"]]) == Some(0)
    ensures ["Root"] == ["Root"] + []
  {
  }

  lemma StripSub1Sub3()
    ensures RemoveHead("Root", [["Root"]]) == [[]]
  {
  }

  lemma LiveSub1Sub2()
    ensures NonEmpty([[], ["Sub1", "Root"], ["Sub1"]]) == [["Sub1", "Root"], ["Sub1"]]
  {
  }

  lemma PickSub1Sub2()
    ensures FindCandidate([["Sub1", "Root"], ["Sub1"]]) == Some(0)
    ensures ["Sub1", "Root"] == ["Sub1"] + ["Root"]
  {
  }

  lemma StripSub1Sub2()
    ensures RemoveHead("Sub1", [["Sub1", "Root"], ["Sub1"]]) == [["Root"], []]
  {
  }

  lemma LiveSub1Sub1()
    ensures NonEmpty([["Sub1Sub"], ["Sub1", "Root"], ["Sub1"]]) == [["Sub1Sub"], ["Sub1", "Root"], ["Sub1"]]
  {
  }

  lemma PickSub1Sub1()
    ensures FindCandidate([["Sub1Sub"], ["Sub1", "Root"], ["Sub1"]]) == Some(0)
    ensures ["Sub1Sub", "Sub1", "Root"] == ["Sub1Sub"] + ["Sub1", "Root"]
  {
  }

  lemma StripSub1Sub1()
    ensures RemoveHead("Sub1Sub", [["Sub1Sub"], ["Sub1", "Root"], ["Sub1"]]) == [[], ["Sub1", "Root"], ["Sub1"]]
  {
  }

  lemma MergeForSub1Sub()
    ensures Merge([["Sub1Sub"], ["Sub1", "Root"], ["Sub1"]]) == Ok(["Sub1Sub", "Sub1", "Root"])
  {
    MergeDone([[]]);
    LiveSub1Sub3();
    PickSub1Sub3();
    StripSub1Sub3();
    MergeStep([["Root"], []],
              [["Root"]], 0,
              [[]], [], ["Root"]);
    LiveSub1Sub2();
    PickSub1Sub2();
    StripSub1Sub2();
    MergeStep([[], ["Sub1", "Root"], ["Sub1"]],
              [["Sub1", "Root"], ["Sub1"]], 0,
              [["Root"], []], ["Root"], ["Sub1", "Root"]);
    LiveSub1Sub1();
    PickSub1Sub1();
    StripSub1Sub1();
    MergeStep([["Sub1Sub"], ["Sub1", "Root"], ["Sub1"]],
              [["Sub1Sub"], ["Sub1", "Root"], ["Sub1"]], 0,
              [[], ["Sub1", "Root"], ["Sub1"]], ["Sub1", "Root"], ["Sub1Sub", "Sub1", "Root"]);
  }

  lemma InputsOfSub1Sub()
    ensures MroInputs("Sub1Sub", [["Sub1", "Root"]], ["Sub1"]) == [["Sub1Sub"], ["Sub1", "Root"], ["Sub1"]]
  {
  }

  lemma ParentsOfSub1Sub()
    ensures "Sub1Sub" in H && Parents(H["Sub1Sub"]) == ["Sub1"]
  {
  }

  /** The inputs `mro` merges for `Sub1Sub`. */
  lemma MergeInputsOfSub1Sub()
    ensures Ranked(H, Rank) && Linearization(H, Rank, "Sub1Sub") == Merge([["Sub1Sub"], ["Sub1", "Root"], ["Sub1"]])
  {
    Acyclic();
    ParentsOfSub1Sub();
    OrderOfSub1();
    LinearizationOfParentOrders(H, Rank, "Sub1Sub", [["Sub1", "Root"]]);
    InputsOfSub1Sub();
  }

  lemma OrderOfSub1Sub()
    ensures Ranked(H, Rank) && Linearization(H, Rank, "Sub1Sub") == Ok(["Sub1Sub", "Sub1", "Root"])
  {
    MergeInputsOfSub1Sub();
    MergeForSub1Sub();
  }

  /** The merge that computes the order of `Sub2`. */
  lemma LiveSub22()
    ensures NonEmpty([[], ["Root"], ["Root"]]) == [["Root"], ["Root"]]
  {
  }

  lemma PickSub22()
    ensures FindCandidate([["Root"], ["Root"]]) == Some(0)
    ensures ["Root"] == ["Root"] + []
  {
  }

  lemma StripSub22()
    ensures RemoveHead("Root", [["Root"], ["Root"]]) == [[], []]
  {
  }

  lemma LiveSub21()
    ensures NonEmpty([["Sub2"], ["Root"], ["Root"]]) == [["Sub2"], ["Root"], ["Root"]]
  {
  }

  lemma PickSub21()
    ensures FindCandidate([["Sub2"], ["Root"], ["Root"]]) == Some(0)
    ensures ["Sub2", "Root"] == ["Sub2"] + ["Root"]
  {
  }

  lemma StripSub21()
    ensures RemoveHead("Sub2", [["Sub2"], ["Root"], ["Root"]]) == [[], ["Root"], ["Root"]]
  {
  }

  lemma MergeForSub2()
    ensures Merge([["Sub2"], ["Root"], ["Root"]]) == Ok(["Sub2", "Root"])
  {
    MergeDone([[], []]);
    LiveSub22();
    PickSub22();
    StripSub22();
    MergeStep([[], ["Root"], ["Root"]],
              [["Root"], ["Root"]], 0,
              [[], []], [], ["Root"]);
    LiveSub21();
    PickSub21();
    StripSub21();
    MergeStep([["Sub2"], ["Root"], ["Root"]],
              [["Sub2"], ["Root"], ["Root"]], 0,
              [[], ["Root"], ["Root"]], ["Root"], ["Sub2", "Root"]);
  }

  lemma InputsOfSub2()
    ensures MroInputs("Sub2", [["Root"]], ["Root"]) == [["Sub2"], ["Root"], ["Root"]]
  {
  }

  lemma ParentsOfSub2()
    ensures "Sub2" in H && Parents(H["Sub2"]) == ["Root"]
  {
  }

  /** The inputs `mro` merges for `Sub2`. */
  lemma MergeInputsOfSub2()
    ensures Ranked(H, Rank) && Linearization(H, Rank, "Sub2") == Merge([["Sub2"], ["Root"], ["Root"]])
  {
    Acyclic();
    ParentsOfSub2();
    OrderOfRoot();
    LinearizationOfParentOrders(H, Rank, "Sub2", [["Root"]]);
    InputsOfSub2();
  }

  lemma OrderOfSub2()
    ensures Ranked(H, Rank) && Linearization(H, Rank, "Sub2") == Ok(["Sub2", "Root"])
  {
    MergeInputsOfSub2();
    MergeForSub2();
  }

  lemma OrderOfTrait1()
    ensures Ranked(H, Rank) && Linearization(H, Rank, "Trait1") == Ok(["Trait1"])
  {
    Acyclic();
    LinearizationOfLeaf(H, Rank, "Trait1");
  }

  lemma OrderOfTrait2()
    ensures Ranked(H, Rank) && Linearization(H, Rank, "Trait2") == Ok(["Trait2"])
  {
    Acyclic();
    LinearizationOfLeaf(H, Rank, "Trait2");
  }

  /** The merge that computes the order of `SubTrait`. */
  lemma LiveSubTrait2()
    ensures NonEmpty([[], ["Trait1"], ["Trait1"]]) == [["Trait1"], ["Trait1"]]
  {
  }

  lemma PickSubTrait2()
    ensures FindCandidate([["Trait1"], ["Trait1"]]) == Some(0)
    ensures ["Trait1"] == ["Trait1"] + []
  {
  }

  lemma StripSubTrait2()
    ensures RemoveHead("Trait1", [["Trait1"], ["Trait1"]]) == [[], []]
  {
  }

  lemma LiveSubTrait1()
    ensures NonEmpty([["SubTrait"], ["Trait1"], ["Trait1"]]) == [["SubTrait"], ["Trait1"], ["Trait1"]]
  {
  }

  lemma PickSubTrait1()
    ensures FindCandidate([["SubTrait"], ["Trait1"], ["Trait1"]]) == Some(0)
    ensures ["SubTrait", "Trait1"] == ["SubTrait"] + ["Trait1"]
  {
  }

  lemma StripSubTrait1()
    ensures RemoveHead("SubTrait", [["SubTrait"], ["Trait1"], ["Trait1"]]) == [[], ["Trait1"], ["Trait1"]]
  {
  }

  lemma MergeForSubTrait()
    ensures Merge([["SubTrait"], ["Trait1"], ["Trait1"]]) == Ok(["SubTrait", "Trait1"])
  {
    MergeDone([[], []]);
    LiveSubTrait2();
    PickSubTrait2();
    StripSubTrait2();
    MergeStep([[], ["Trait1"], ["Trait1"]],
              [["Trait1"], ["Trait1"]], 0,
              [[], []], [], ["Trait1"]);
    LiveSubTrait1();
    PickSubTrait1();
    StripSubTrait1();
    MergeStep([["SubTrait"], ["Trait1"], ["Trait1"]],
              [["SubTrait"], ["Trait1"], ["Trait1"]], 0,
              [[], ["Trait1"], ["Trait1"]], ["Trait1"], ["SubTrait", "Trait1"]);
  }

  lemma InputsOfSubTrait()
    ensures MroInputs("SubTrait", [["Trait1"]], ["Trait1"]) == [["SubTrait"], ["Trait1"], ["Trait1"]]
  {
  }

  lemma ParentsOfSubTrait()
    ensures "SubTrait" in H && Parents(H["SubTrait"]) == ["Trait1"]
  {
  }

  /** The inputs `mro` merges for `SubTrait`. */
  lemma MergeInputsOfSubTrait()
    ensures Ranked(H, Rank) && Linearization(H, Rank, "SubTrait") == Merge([["SubTrait"], ["Trait1"], ["Trait1"]])
  {
    Acyclic();
    ParentsOfSubTrait();
    OrderOfTrait1();
    LinearizationOfParentOrders(H, Rank, "SubTrait", [["Trait1"]]);
    InputsOfSubTrait();
  }

  lemma OrderOfSubTrait()
    ensures Ranked(H, Rank) && Linearization(H, Rank, "SubTrait") == Ok(["SubTrait", "Trait1"])
  {
    MergeInputsOfSubTrait();
    MergeForSubTrait();
  }

  /** The merge that computes the order of `SubWithTrait1`. */
  lemma LiveSubWithTrait14()
    ensures NonEmpty([["Root"], []]) == [["Root"]]
  {
  }

  lemma PickSubWithTrait14()
    ensures FindCandidate([["Root"]]) == Some(0)
    ensures ["Root"] == ["Root"] + []
  {
  }

  lemma StripSubWithTrait14()
    ensures RemoveHead("Root", [["Root"]]) == [[]]
  {
  }

  lemma LiveSubWithTrait13()
    ensures NonEmpty([[], ["Sub2", "Root"], ["Sub2"]]) == [["Sub2", "Root"], ["Sub2"]]
  {
  }

  lemma PickSubWithTrait13()
    ensures FindCandidate([["Sub2", "Root"], ["Sub2"]]) == Some(0)
    ensures ["Sub2", "Root"] == ["Sub2"] + ["Root"]
  {
  }

  lemma StripSubWithTrait13()
    ensures RemoveHead("Sub2", [["Sub2", "Root"], ["Sub2"]]) == [["Root"], []]
  {
  }

  lemma LiveSubWithTrait12()
    ensures NonEmpty([[], ["Trait1"], ["Sub2", "Root"], ["Trait1", "Sub2"]]) == [["Trait1"], ["Sub2", "Root"], ["Trait1", "Sub2"]]
  {
  }

  lemma PickSubWithTrait12()
    ensures FindCandidate([["Trait1"], ["Sub2", "Root"], ["Trait1", "Sub2"]]) == Some(0)
    ensures ["Trait1", "Sub2", "Root"] == ["Trait1"] + ["Sub2", "Root"]
  {
  }

  lemma StripSubWithTrait12()
    ensures RemoveHead("Trait1", [["Trait1"], ["Sub2", "Root"], ["Trait1", "Sub2"]]) == [[], ["Sub2", "Root"], ["Sub2"]]
  {
  }

  lemma LiveSubWithTrait11()
    ensures NonEmpty([["SubWithTrait1"], ["Trait1"], ["Sub2", "Root"], ["Trait1", "Sub2"]]) == [["SubWithTrait1"], ["Trait1"], ["Sub2", "Root"], ["Trait1", "Sub2"]]
  {
  }

  lemma PickSubWithTrait11()
    ensures FindCandidate([["SubWithTrait1"], ["Trait1"], ["Sub2", "Root"], ["Trait1", "Sub2"]]) == Some(0)
    ensures ["SubWithTrait1", "Trait1", "Sub2", "Root"] == ["SubWithTrait1"] + ["Trait1", "Sub2", "Root"]
  {
  }

  lemma StripSubWithTrait11()
    ensures RemoveHead("SubWithTrait1", [["SubWithTrait1"], ["Trait1"], ["Sub2", "Root"], ["Trait1", "Sub2"]]) == [[], ["Trait1"], ["Sub2", "Root"], ["Trait1", "Sub2"]]
  {
  }

  lemma MergeForSubWithTrait1()
    ensures Merge([["SubWithTrait1"], ["Trait1"], ["Sub2", "Root"], ["Trait1", "Sub2"]]) == Ok(["SubWithTrait1", "Trait1", "Sub2", "Root"])
  {
    MergeDone([[]]);
    LiveSubWithTrait14();
    PickSubWithTrait14();
    StripSubWithTrait14();
    MergeStep([["Root"], []],
              [["Root"]], 0,
              [[]], [], ["Root"]);
    LiveSubWithTrait13();
    PickSubWithTrait13();
    StripSubWithTrait13();
    MergeStep([[], ["Sub2", "Root"], ["Sub2"]],
              [["Sub2", "Root"], ["Sub2"]], 0,
              [["Root"], []], ["Root"], ["Sub2", "Root"]);
    LiveSubWithTrait12();
    PickSubWithTrait12();
    StripSubWithTrait12();
    MergeStep([[], ["Trait1"], ["Sub2", "Root"], ["Trait1", "Sub2"]],
              [["Trait1"], ["Sub2", "Root"], ["Trait1", "Sub2"]], 0,
              [[], ["Sub2", "Root"], ["Sub2"]], ["Sub2", "Root"], ["Trait1", "Sub2", "Root"]);
    LiveSubWithTrait11();
    PickSubWithTrait11();
    StripSubWithTrait11();
    MergeStep([["SubWithTrait1"], ["Trait1"], ["Sub2", "Root"], ["Trait1", "Sub2"]],
              [["SubWithTrait1"], ["Trait1"], ["Sub2", "Root"], ["Trait1", "Sub2"]], 0,
              [[], ["Trait1"], ["Sub2", "Root"], ["Trait1", "Sub2"]], ["Trait1", "Sub2", "Root"], ["SubWithTrait1", "Trait1", "Sub2", "Root"]);
  }

  lemma InputsOfSubWithTrait1()
    ensures MroInputs("SubWithTrait1", [["Trait1"], ["Sub2", "Root"]], ["Trait1", "Sub2"]) == [["SubWithTrait1"], ["Trait1"], ["Sub2", "Root"], ["Trait1", "Sub2"]]
  {
  }

  lemma ParentsOfSubWithTrait1()
    ensures "SubWithTrait1" in H && Parents(H["SubWithTrait1"]) == ["Trait1", "Sub2"]
  {
  }

  /** The inputs `mro` merges for `SubWithTrait1`. */
  lemma MergeInputsOfSubWithTrait1()
    ensures Ranked(H, Rank) && Linearization(H, Rank, "SubWithTrait1") == Merge([["SubWithTrait1"], ["Trait1"], ["Sub2", "Root"], ["Trait1", "Sub2"]])
  {
    Acyclic();
    ParentsOfSubWithTrait1();
    OrderOfTrait1();
    OrderOfSub2();
    LinearizationOfParentOrders(H, Rank, "SubWithTrait1", [["Trait1"], ["Sub2", "Root"]]);
    InputsOfSubWithTrait1();
  }

  lemma OrderOfSubWithTrait1()
    ensures Ranked(H, Rank) && Linearization(H, Rank, "SubWithTrait1") == Ok(["SubWithTrait1", "Trait1", "Sub2", "Root"])
  {
    MergeInputsOfSubWithTrait1();
    MergeForSubWithTrait1();
  }

  /** The merge that computes the order of `SubWithTrait2`. */
  lemma LiveSubWithTrait24()
    ensures NonEmpty([["Root"], []]) == [["Root"]]
  {
  }

  lemma PickSubWithTrait24()
    ensures FindCandidate([["Root"]]) == Some(0)
    ensures ["Root"] == ["Root"] + []
  {
  }

  lemma StripSubWithTrait24()
    ensures RemoveHead("Root", [["Root"]]) == [[]]
  {
  }

  lemma LiveSubWithTrait23()
    ensures NonEmpty([[], ["Sub1", "Root"], ["Sub1"]]) == [["Sub1", "Root"], ["Sub1"]]
  {
  }

  lemma PickSubWithTrait23()
    ensures FindCandidate([["Sub1", "Root"], ["Sub1"]]) == Some(0)
    ensures ["Sub1", "Root"] == ["Sub1"] + ["Root"]
  {
  }

  lemma StripSubWithTrait23()
    ensures RemoveHead("Sub1", [["Sub1", "Root"], ["Sub1"]]) == [["Root"], []]
  {
  }

  lemma LiveSubWithTrait22()
    ensures NonEmpty([[], ["Trait2"], ["Sub1", "Root"], ["Trait2", "Sub1"]]) == [["Trait2"], ["Sub1", "Root"], ["Trait2", "Sub1"]]
  {
  }

  lemma PickSubWithTrait22()
    ensures FindCandidate([["Trait2"], ["Sub1", "Root"], ["Trait2", "Sub1"]]) == Some(0)
    ensures ["Trait2", "Sub1", "Root"] == ["Trait2"] + ["Sub1", "Root"]
  {
  }

  lemma StripSubWithTrait22()
    ensures RemoveHead("Trait2", [["Trait2"], ["Sub1", "Root"], ["Trait2", "Sub1"]]) == [[], ["Sub1", "Root"], ["Sub1"]]
  {
  }

  lemma LiveSubWithTrait21()
    ensures NonEmpty([["SubWithTrait2"], ["Trait2"], ["Sub1", "Root"], ["Trait2", "Sub1"]]) == [["SubWithTrait2"], ["Trait2"], ["Sub1", "Root"], ["Trait2", "Sub1"]]
  {
  }

  lemma PickSubWithTrait21()
    ensures FindCandidate([["SubWithTrait2"], ["Trait2"], ["Sub1", "Root"], ["Trait2", "Sub1"]]) == Some(0)
    ensures ["SubWithTrait2", "Trait2", "Sub1", "Root"] == ["SubWithTrait2"] + ["Trait2", "Sub1", "Root"]
  {
  }

  lemma StripSubWithTrait21()
    ensures RemoveHead("SubWithTrait2", [["SubWithTrait2"], ["Trait2"], ["Sub1", "Root"], ["Trait2", "Sub1"]]) == [[], ["Trait2"], ["Sub1", "Root"], ["Trait2", "Sub1"]]
  {
  }

  lemma MergeForSubWithTrait2()
    ensures Merge([["SubWithTrait2"], ["Trait2"], ["Sub1", "Root"], ["Trait2", "Sub1"]]) == Ok(["SubWithTrait2", "Trait2", "Sub1", "Root"])
  {
    MergeDone([[]]);
    LiveSubWithTrait24();
    PickSubWithTrait24();
    StripSubWithTrait24();
    MergeStep([["Root"], []],
              [["Root"]], 0,
              [[]], [], ["Root"]);
    LiveSubWithTrait23();
    PickSubWithTrait23();
    StripSubWithTrait23();
    MergeStep([[], ["Sub1", "Root"], ["Sub1"]],
              [["Sub1", "Root"], ["Sub1"]], 0,
              [["Root"], []], ["Root"], ["Sub1", "Root"]);
    LiveSubWithTrait22();
    PickSubWithTrait22();
    StripSubWithTrait22();
    MergeStep([[], ["Trait2"], ["Sub1", "Root"], ["Trait2", "Sub1"]],
              [["Trait2"], ["Sub1", "Root"], ["Trait2", "Sub1"]], 0,
              [[], ["Sub1", "Root"], ["Sub1"]], ["Sub1", "Root"], ["Trait2", "Sub1", "Root"]);
    LiveSubWithTrait21();
    PickSubWithTrait21();
    StripSubWithTrait21();
    MergeStep([["SubWithTrait2"], ["Trait2"], ["Sub1", "Root"], ["Trait2", "Sub1"]],
              [["SubWithTrait2"], ["Trait2"], ["Sub1", "Root"], ["Trait2", "Sub1"]], 0,
              [[], ["Trait2"], ["Sub1", "Root"], ["Trait2", "Sub1"]], ["Trait2", "Sub1", "Root"], ["SubWithTrait2", "Trait2", "Sub1", "Root"]);
  }

  lemma InputsOfSubWithTrait2()
    ensures MroInputs("SubWithTrait2", [["Trait2"], ["Sub1", "Root"]], ["Trait2", "Sub1"]) == [["SubWithTrait2"], ["Trait2"], ["Sub1", "Root"], ["Trait2", "Sub1"]]
  {
  }

  lemma ParentsOfSubWithTrait2()
    ensures "SubWithTrait2" in H && Parents(H["SubWithTrait2"]) == ["Trait2", "Sub1"]
  {
  }

  /** The inputs `mro` merges for `SubWithTrait2`. */
  lemma MergeInputsOfSubWithTrait2()
    ensures Ranked(H, Rank) && Linearization(H, Rank, "SubWithTrait2") == Merge([["SubWithTrait2"], ["Trait2"], ["Sub1", "Root"], ["Trait2", "Sub1"]])
  {
    Acyclic();
    ParentsOfSubWithTrait2();
    OrderOfTrait2();
    OrderOfSub1();
    LinearizationOfParentOrders(H, Rank, "SubWithTrait2", [["Trait2"], ["Sub1", "Root"]]);
    InputsOfSubWithTrait2();
  }

  lemma OrderOfSubWithTrait2()
    ensures Ranked(H, Rank) && Linearization(H, Rank, "SubWithTrait2") == Ok(["SubWithTrait2", "Trait2", "Sub1", "Root"])
  {
    MergeInputsOfSubWithTrait2();
    MergeForSubWithTrait2();
  }

  /** The merge that computes the order of `SubWithTrait3`. */
  lemma LiveSubWithTrait37()
    ensures NonEmpty([["Root"]]) == [["Root"]]
  {
  }

  lemma PickSubWithTrait37()
    ensures FindCandidate([["Root"]]) == Some(0)
    ensures ["Root"] == ["Root"] + []
  {
  }

  lemma StripSubWithTrait37()
    ensures RemoveHead("Root", [["Root"]]) == [[]]
  {
  }

  lemma LiveSubWithTrait36()
    ensures NonEmpty([["Sub1", "Root"]]) == [["Sub1", "Root"]]
  {
  }

  lemma PickSubWithTrait36()
    ensures FindCandidate([["Sub1", "Root"]]) == Some(0)
    ensures ["Sub1", "Root"] == ["Sub1"] + ["Root"]
  {
  }

  lemma StripSubWithTrait36()
    ensures RemoveHead("Sub1", [["Sub1", "Root"]]) == [["Root"]]
  {
  }

  lemma LiveSubWithTrait35()
    ensures NonEmpty([["Trait2", "Sub1", "Root"], []]) == [["Trait2", "Sub1", "Root"]]
  {
  }

  lemma PickSubWithTrait35()
    ensures FindCandidate([["Trait2", "Sub1", "Root"]]) == Some(0)
    ensures ["Trait2", "Sub1", "Root"] == ["Trait2"] + ["Sub1", "Root"]
  {
  }

  lemma StripSubWithTrait35()
    ensures RemoveHead("Trait2", [["Trait2", "Sub1", "Root"]]) == [["Sub1", "Root"]]
  {
  }

  lemma LiveSubWithTrait34()
    ensures NonEmpty([[], ["SubWithTrait2", "Trait2", "Sub1", "Root"], ["SubWithTrait2"]]) == [["SubWithTrait2", "Trait2", "Sub1", "Root"], ["SubWithTrait2"]]
  {
  }

  lemma PickSubWithTrait34()
    ensures FindCandidate([["SubWithTrait2", "Trait2", "Sub1", "Root"], ["SubWithTrait2"]]) == Some(0)
    ensures ["SubWithTrait2", "Trait2", "Sub1", "Root"] == ["SubWithTrait2"] + ["Trait2", "Sub1", "Root"]
  {
  }

  lemma StripSubWithTrait34()
    ensures RemoveHead("SubWithTrait2", [["SubWithTrait2", "Trait2", "Sub1", "Root"], ["SubWithTrait2"]]) == [["Trait2", "Sub1", "Root"], []]
  {
  }

  lemma LiveSubWithTrait33()
    ensures NonEmpty([["Trait1"], ["SubWithTrait2", "Trait2", "Sub1", "Root"], ["SubWithTrait2"]]) == [["Trait1"], ["SubWithTrait2", "Trait2", "Sub1", "Root"], ["SubWithTrait2"]]
  {
  }

  lemma PickSubWithTrait33()
    ensures FindCandidate([["Trait1"], ["SubWithTrait2", "Trait2", "Sub1", "Root"], ["SubWithTrait2"]]) == Some(0)
    ensures ["Trait1", "SubWithTrait2", "Trait2", "Sub1", "Root"] == ["Trait1"] + ["SubWithTrait2", "Trait2", "Sub1", "Root"]
  {
  }

  lemma StripSubWithTrait33()
    ensures RemoveHead("Trait1", [["Trait1"], ["SubWithTrait2", "Trait2", "Sub1", "Root"], ["SubWithTrait2"]]) == [[], ["SubWithTrait2", "Trait2", "Sub1", "Root"], ["SubWithTrait2"]]
  {
  }

  lemma LiveSubWithTrait32()
    ensures NonEmpty([[], ["SubTrait", "Trait1"], ["SubWithTrait2", "Trait2", "Sub1", "Root"], ["SubTrait", "SubWithTrait2"]]) == [["SubTrait", "Trait1"], ["SubWithTrait2", "Trait2", "Sub1", "Root"], ["SubTrait", "SubWithTrait2"]]
  {
  }

  lemma PickSubWithTrait32()
    ensures FindCandidate([["SubTrait", "Trait1"], ["SubWithTrait2", "Trait2", "Sub1", "Root"], ["SubTrait", "SubWithTrait2"]]) == Some(0)
    ensures ["SubTrait", "Trait1", "SubWithTrait2", "Trait2", "Sub1", "Root"] == ["SubTrait"] + ["Trait1", "SubWithTrait2", "Trait2", "Sub1", "Root"]
  {
  }

  lemma StripSubWithTrait32()
    ensures RemoveHead("SubTrait", [["SubTrait", "Trait1"], ["SubWithTrait2", "Trait2", "Sub1", "Root"], ["SubTrait", "SubWithTrait2"]]) == [["Trait1"], ["SubWithTrait2", "Trait2", "Sub1", "Root"], ["SubWithTrait2"]]
  {
  }

  lemma LiveSubWithTrait31()
    ensures NonEmpty([["SubWithTrait3"], ["SubTrait", "Trait1"], ["SubWithTrait2", "Trait2", "Sub1", "Root"], ["SubTrait", "SubWithTrait2"]]) == [["SubWithTrait3"], ["SubTrait", "Trait1"], ["SubWithTrait2", "Trait2", "Sub1", "Root"], ["SubTrait", "SubWithTrait2"]]
  {
  }

  lemma PickSubWithTrait31()
    ensures FindCandidate([["SubWithTrait3"], ["SubTrait", "Trait1"], ["SubWithTrait2", "Trait2", "Sub1", "Root"], ["SubTrait", "SubWithTrait2"]]) == Some(0)
    ensures ["SubWithTrait3", "SubTrait", "Trait1", "SubWithTrait2", "Trait2", "Sub1", "Root"] == ["SubWithTrait3"] + ["SubTrait", "Trait1", "SubWithTrait2", "Trait2", "Sub1", "Root"]
  {
  }

  lemma StripSubWithTrait31()
    ensures RemoveHead("SubWithTrait3", [["SubWithTrait3"], ["SubTrait", "Trait1"], ["SubWithTrait2", "Trait2", "Sub1", "Root"], ["SubTrait", "SubWithTrait2"]]) == [[], ["SubTrait", "Trait1"], ["SubWithTrait2", "Trait2", "Sub1", "Root"], ["SubTrait", "SubWithTrait2"]]
  {
  }

  lemma MergeForSubWithTrait3()
    ensures Merge([["SubWithTrait3"], ["SubTrait", "Trait1"], ["SubWithTrait2", "Trait2", "Sub1", "Root"], ["SubTrait", "SubWithTrait2"]]) == Ok(["SubWithTrait3", "SubTrait", "Trait1", "SubWithTrait2", "Trait2", "Sub1", "Root"])
  {
    MergeDone([[]]);
    LiveSubWithTrait37();
    PickSubWithTrait37();
    StripSubWithTrait37();
    MergeStep([["Root"]],
              [["Root"]], 0,
              [[]], [], ["Root"]);
    LiveSubWithTrait36();
    PickSubWithTrait36();
    StripSubWithTrait36();
    MergeStep([["Sub1", "Root"]],
              [["Sub1", "Root"]], 0,
              [["Root"]], ["Root"], ["Sub1", "Root"]);
    LiveSubWithTrait35();
    PickSubWithTrait35();
    StripSubWithTrait35();
    MergeStep([["Trait2", "Sub1", "Root"], []],
              [["Trait2", "Sub1", "Root"]], 0,
              [["Sub1", "Root"]], ["Sub1", "Root"], ["Trait2", "Sub1", "Root"]);
    LiveSubWithTrait34();
    PickSubWithTrait34();
    StripSubWithTrait34();
    MergeStep([[], ["SubWithTrait2", "Trait2", "Sub1", "Root"], ["SubWithTrait2"]],
              [["SubWithTrait2", "Trait2", "Sub1", "Root"], ["SubWithTrait2"]], 0,
              [["Trait2", "Sub1", "Root"], []], ["Trait2", "Sub1", "Root"], ["SubWithTrait2", "Trait2", "Sub1", "Root"]);
    LiveSubWithTrait33();
    PickSubWithTrait33();
    StripSubWithTrait33();
    MergeStep([["Trait1"], ["SubWithTrait2", "Trait2", "Sub1", "Root"], ["SubWithTrait2"]],
              [["Trait1"], ["SubWithTrait2", "Trait2", "Sub1", "Root"], ["SubWithTrait2"]], 0,
              [[], ["SubWithTrait2", "Trait2", "Sub1", "Root"], ["SubWithTrait2"]], ["SubWithTrait2", "Trait2", "Sub1", "Root"], ["Trait1", "SubWithTrait2", "Trait2", "Sub1", "Root"]);
    LiveSubWithTrait32();
    PickSubWithTrait32();
    StripSubWithTrait32();
    MergeStep([[], ["SubTrait", "Trait1"], ["SubWithTrait2", "Trait2", "Sub1", "Root"], ["SubTrait", "SubWithTrait2"]],
              [["SubTrait", "Trait1"], ["SubWithTrait2", "Trait2", "Sub1", "Root"], ["SubTrait", "SubWithTrait2"]], 0,
              [["Trait1"], ["SubWithTrait2", "Trait2", "Sub1", "Root"], ["SubWithTrait2"]], ["Trait1", "SubWithTrait2", "Trait2", "Sub1", "Root"], ["SubTrait", "Trait1", "SubWithTrait2", "Trait2", "Sub1", "Root"]);
    LiveSubWithTrait31();
    PickSubWithTrait31();
    StripSubWithTrait31();
    MergeStep([["SubWithTrait3"], ["SubTrait", "Trait1"], ["SubWithTrait2", "Trait2", "Sub1", "Root"], ["SubTrait", "SubWithTrait2"]],
              [["SubWithTrait3"], ["SubTrait", "Trait1"], ["SubWithTrait2", "Trait2", "Sub1", "Root"], ["SubTrait", "SubWithTrait2"]], 0,
              [[], ["SubTrait", "Trait1"], ["SubWithTrait2", "Trait2", "Sub1", "Root"], ["SubTrait", "SubWithTrait2"]], ["SubTrait", "Trait1", "SubWithTrait2", "Trait2", "Sub1", "Root"], ["SubWithTrait3", "SubTrait", "Trait1", "SubWithTrait2", "Trait2", "Sub1", "Root"]);
  }

  lemma InputsOfSubWithTrait3()
    ensures MroInputs("SubWithTrait3", [["SubTrait", "Trait1"], ["SubWithTrait2", "Trait2", "Sub1", "Root"]], ["SubTrait", "SubWithTrait2"]) == [["SubWithTrait3"], ["SubTrait", "Trait1"], ["SubWithTrait2", "Trait2", "Sub1", "Root"], ["SubTrait", "SubWithTrait2"]]
  {
  }

  lemma ParentsOfSubWithTrait3()
    ensures "SubWithTrait3" in H && Parents(H["SubWithTrait3"]) == ["SubTrait", "SubWithTrait2"]
  {
  }

  /** The inputs `mro` merges for `SubWithTrait3`. */
  lemma MergeInputsOfSubWithTrait3()
    ensures Ranked(H, Rank) && Linearization(H, Rank, "SubWithTrait3") == Merge([["SubWithTrait3"], ["SubTrait", "Trait1"], ["SubWithTrait2", "Trait2", "Sub1", "Root"], ["SubTrait", "SubWithTrait2"]])
  {
    Acyclic();
    ParentsOfSubWithTrait3();
    OrderOfSubTrait();
    OrderOfSubWithTrait2();
    LinearizationOfParentOrders(H, Rank, "SubWithTrait3", [["SubTrait", "Trait1"], ["SubWithTrait2", "Trait2", "Sub1", "Root"]]);
    InputsOfSubWithTrait3();
  }

  lemma OrderOfSubWithTrait3()
    ensures Ranked(H, Rank) && Linearization(H, Rank, "SubWithTrait3") == Ok(["SubWithTrait3", "SubTrait", "Trait1", "SubWithTrait2", "Trait2", "Sub1", "Root"])
  {
    MergeInputsOfSubWithTrait3();
    MergeForSubWithTrait3();
  }

}
