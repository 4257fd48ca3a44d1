/** Concrete inputs that show how the key order and the code as written decide a match. */
module Scenarios {
  import opened Wrappers
  import opened Tally
  import opened Stage
  import opened Matching
  import opened MatchingProperties
  import PropertyKeys

  /**
   * Two users who both liked "x" and "y": whichever of the two was liked first in the
   * flattened list wins, so swapping the users swaps the winner.
   */
  lemma WinnerDependsOnUserOrder()
    ensures UnanimousKey([User("a", ["x", "y"]), User("b", ["y", "x"])], NullPrototype) == Some("x")
    ensures UnanimousKey([User("b", ["y", "x"]), User("a", ["x", "y"])], NullPrototype) == Some("y")
  {
    var a, b := User("a", ["x", "y"]), User("b", ["y", "x"]);
    TwoNamedUnanimousIds([a, b], "x", "y");
    TwoNamedUnanimousIds([b, a], "y", "x");
  }

  lemma TwoNamedUnanimousIds(users: seq<User>, first: Id, second: Id)
    requires |users| == 2 && first != second
    requires !PropertyKeys.IsArrayIndex(first) && !PropertyKeys.IsArrayIndex(second)
    requires users[0].likedMiningOptionIds == [first, second]
    requires users[1].likedMiningOptionIds == [second, first]
    ensures UnanimousKey(users, NullPrototype) == Some(first)
  {
    var ids := LikedIds(users);
    LikedIdsCons(users);
    LikedIdsCons(users[1..]);
    assert ids == [first, second, second, first];
    assert multiset(ids) == multiset{first, first, second, second};
    assert IsUnanimous(users, first);
    forall id | IsUnanimous(users, id) && id != first
      ensures !PropertyKeys.IsArrayIndex(id) && FirstIndex(ids, first) < FirstIndex(ids, id)
    {
      assert id in multiset(ids);
      assert id == second;
      assert FirstIndex(ids, first) == 0;
    }
    FirstLikedNamedIdWins(users, NullPrototype, first);
  }

  /**
   * Ids that look like array indices are visited in numeric order: "2" wins over "10"
   * although every user liked "10" first.
   */
  lemma IndexIdsWinByValue()
    ensures var u := User("a", ["10", "2"]);
            UnanimousKey([u, u.(connectionId := "b")], NullPrototype) == Some("2")
  {
    var u := User("a", ["10", "2"]);
    var users := [u, u.(connectionId := "b")];
    LikedIdsCons(users);
    LikedIdsCons(users[1..]);
    var ids := LikedIds(users);
    assert ids == ["10", "2", "10", "2"];
    assert multiset(ids)["10"] == 2 && multiset(ids)["2"] == 2;
    assert PropertyKeys.NumeralValue("10") == 10 && PropertyKeys.NumeralValue("2") == 2;
    assert PropertyKeys.IsArrayIndex("10") && PropertyKeys.IsArrayIndex("2");
    forall id | IsUnanimous(users, id) && id != "2" && PropertyKeys.IsArrayIndex(id)
      ensures PropertyKeys.IndexValue("2") < PropertyKeys.IndexValue(id)
    {
      assert id in multiset(ids);
    }
    LeastIndexIdWins(users, NullPrototype, "2");
  }

  /** One user who liked exactly one id: that id, and no other, is unanimous. */
  lemma LoneLike(s: Stage, w: Id)
    requires |s.users| == 1 && s.users[0].likedMiningOptionIds == [w]
    ensures forall id :: IsUnanimous(s.users, id) <==> id == w
  {
    LikedIdsCons(s.users);
    assert LikedIds(s.users[1..]) == [];
    assert LikedIds(s.users) == [w];
    forall id ensures IsUnanimous(s.users, id) <==> id == w {
      assert multiset([w])[id] == if id == w then 1 else 0;
    }
  }

  /** With one user who liked one id, the corrected update completes on that id. */
  lemma LoneLikeCompletes(s: Stage, w: Id)
    requires |s.users| == 1 && s.users[0].likedMiningOptionIds == [w]
    ensures UpdateStage(s) == Complete(s, w)
  {
    LoneLike(s, w);
    SoleUnanimousIdWins(s.users, NullPrototype, w);
  }

  /**
   * With one user who liked one id, the code as written leaves the stage alone when that
   * id is empty or names an Object.prototype method or accessor.
   */
  lemma LoneLikeIgnoredAsWritten(s: Stage, w: Id)
    requires |s.users| == 1 && s.users[0].likedMiningOptionIds == [w]
    requires w == "" || w in ObjectPrototype.methods || w in ObjectPrototype.accessors
    ensures UpdateStageAsWritten(s) == s
  {
    LoneLike(s, w);
    var r := UnanimousKey(s.users, ObjectPrototype);
    assert r.None? || r.value == w;
    assert r.None? || r.value == "";
  }

  /**
   * A lone user who liked "" and then "x": both ids are unanimous, the search finds ""
   * first, and the code as written stops there, so the unanimous "x" is never matched.
   */
  lemma EmptyIdBlocksLaterUnanimousId()
    ensures var s := Stage([User("a", ["", "x"])], [MiningOption("x", "X")], MiningSimulation, None);
            && IsUnanimous(s.users, "x")
            && UnanimousKey(s.users, ObjectPrototype) == Some("")
            && UpdateStageAsWritten(s) == s
  {
    var s := Stage([User("a", ["", "x"])], [MiningOption("x", "X")], MiningSimulation, None);
    var ids := LikedIds(s.users);
    LikedIdsCons(s.users);
    assert LikedIds(s.users[1..]) == [];
    assert ids == ["", "x"];
    assert multiset(ids) == multiset{"", "x"};
    assert IsUnanimous(s.users, "") && IsUnanimous(s.users, "x");
    assert !PropertyKeys.IsArrayIndex("") && !PropertyKeys.IsArrayIndex("x");
    forall id | IsUnanimous(s.users, id) && id !in ObjectPrototype.methods && id !in ObjectPrototype.accessors && id != ""
      ensures !PropertyKeys.IsArrayIndex(id) && FirstIndex(ids, "") < FirstIndex(ids, id)
    {
      assert id in multiset(ids);
      assert id == "x";
      assert FirstIndex(ids, "") == 0;
    }
    FirstLikedNamedIdWins(s.users, ObjectPrototype, "");
  }

  /**
   * A lone user who liked only the option with the empty id: that id is unanimous, but
   * the code as written tests the found key for truthiness and leaves the stage as it
   * was; the corrected update completes the simulation.
   */
  lemma EmptyIdUnanimityIgnored()
    ensures var s := Stage([User("a", [""])], [MiningOption("", "Any")], MiningSimulation, None);
            && IsUnanimous(s.users, "")
            && UpdateStageAsWritten(s) == s
            && UpdateStage(s) == Stage(s.users, s.miningOptions, MiningCompleted, Some(MiningOption("", "Any")))
  {
    var s := Stage([User("a", [""])], [MiningOption("", "Any")], MiningSimulation, None);
    LoneLike(s, "");
    LoneLikeCompletes(s, "");
    LoneLikeIgnoredAsWritten(s, "");
    FirstOptionSelected(s.miningOptions, "");
  }

  /**
   * A lone user who liked only the option with id "toString": the tally of that id is
   * text, not a number, so the code as written finds no key; the corrected update does.
   */
  lemma PrototypeNameUnanimityIgnored()
    ensures var s := Stage([User("a", ["toString"])], [MiningOption("toString", "Any")], MiningSimulation, None);
            && IsUnanimous(s.users, "toString")
            && UpdateStageAsWritten(s) == s
            && UpdateStage(s) == Stage(s.users, s.miningOptions, MiningCompleted, Some(MiningOption("toString", "Any")))
  {
    var s := Stage([User("a", ["toString"])], [MiningOption("toString", "Any")], MiningSimulation, None);
    LoneLike(s, "toString");
    LoneLikeCompletes(s, "toString");
    LoneLikeIgnoredAsWritten(s, "toString");
    FirstOptionSelected(s.miningOptions, "toString");
  }
}
