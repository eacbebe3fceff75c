/** Two small graphs rendered by the tree printer: a diamond, whose shared
    target is printed in full under both parents, and a two-node cycle, which
    is cut at the repeated coordinate. */
module TreeScenarios {
  import opened Dependencies
  import opened Tree

  const Diamond: Graph := map[
    "a:a" := [Dep("b", "b", "1.0"), Dep("c", "c", "1.0")],
    "b:b" := [Dep("d", "d", "1.0")],
    "c:c" := [Dep("d", "d", "1.0")],
    "d:d" := []
  ]

  const Cycle: Graph := map[
    "x:x" := [Dep("y", "y", "1.0")],
    "y:y" := [Dep("x", "x", "1.0")]
  ]

  /** One arm of the diamond: a middle node one level down, with its leaf. */
  lemma DiamondArm(mid: string)
    requires mid == "b:b" || mid == "c:c"
    ensures TreeLines(Diamond, 3, mid, 1, {"a:a"}) == [Indent(1) + Last + mid, "    └── d:d"]
  {
    assert Key(Dep("d", "d", "1.0")) == "d:d";
    assert Diamond[mid] == [Dep("d", "d", "1.0")];
    assert Indent(2) == "    ";
    assert Indent(2) + Last + "d:d" == "    └── d:d";
    assert TreeLines(Diamond, 3, "d:d", 2, {"a:a", mid}) == ["    └── d:d"];
  }

  /** The diamond: `d:d` appears under `b:b` and under `c:c`, neither marked. */
  lemma DiamondRenderedTwice()
    ensures TreeLines(Diamond, 3, "a:a", 0, {}) ==
      ["a:a", "  └── b:b", "    └── d:d", "  └── c:c", "    └── d:d"]
  {
    var deps := Diamond["a:a"];
    var p := {"a:a"};
    assert Key(deps[0]) == "b:b" && Key(deps[1]) == "c:c";
    assert Indent(1) == "  ";
    assert Indent(1) + Last + "b:b" == "  └── b:b";
    assert Indent(1) + Last + "c:c" == "  └── c:c";
    DiamondArm("b:b");
    DiamondArm("c:c");
    var arm1 := ["  └── b:b", "    └── d:d"];
    var arm2 := ["  └── c:c", "    └── d:d"];
    assert ChildLines(Diamond, 3, deps, 2, 0, p) == [];
    assert ChildLines(Diamond, 3, deps, 1, 0, p) == arm2;
    assert ChildLines(Diamond, 3, deps, 0, 0, p) == arm1 + arm2;
    assert Indent(0) + "" + "a:a" == "a:a";
    assert TreeLines(Diamond, 3, "a:a", 0, {}) == ["a:a"] + ChildLines(Diamond, 3, deps, 0, 0, {} + {"a:a"});
    assert {} + {"a:a"} == p;
  }

  /** The cycle: `x:x -> y:y -> x:x`, the second `x:x` marked cyclic. */
  lemma CycleCut()
    ensures TreeLines(Cycle, 4, "x:x", 0, {}) ==
      ["x:x", "  └── y:y", "    └── x:x" + CyclicMark]
  {
    assert Key(Dep("y", "y", "1.0")) == "y:y";
    assert Key(Dep("x", "x", "1.0")) == "x:x";
    assert Indent(1) == "  " && Indent(2) == "    ";
    assert Indent(1) + Last + "y:y" == "  └── y:y";
    assert Indent(2) + Last + "x:x" + CyclicMark == "    └── x:x" + CyclicMark;
    assert Indent(0) + "" + "x:x" == "x:x";
    assert TreeLines(Cycle, 4, "x:x", 2, {"x:x", "y:y"}) == ["    └── x:x" + CyclicMark];
    assert TreeLines(Cycle, 4, "y:y", 1, {"x:x"}) == ["  └── y:y", "    └── x:x" + CyclicMark];
  }
}
