/** Properties of the consensus rule and of the code as written. */
module MatchingProperties {
  import opened Wrappers
  import opened Tally
  import opened Stage
  import opened Matching
  import JsArray
  import PropertyKeys

  /** The flattened likes start with the first user's likes. */
  lemma LikedIdsCons(users: seq<User>)
    requires |users| > 0
    ensures LikedIds(users) == users[0].likedMiningOptionIds + LikedIds(users[1..])
  {
  }

  /** Like counts do not depend on the order in which users joined. */
  lemma LikeCountIgnoresUserOrder(us: seq<User>, vs: seq<User>, id: Id)
    requires multiset(us) == multiset(vs)
    ensures LikeCount(us, id) == LikeCount(vs, id)
    ensures IsUnanimous(us, id) <==> IsUnanimous(vs, id)
  {
    JsArray.FlatMapPermutation(us, vs, (u: User) => u.likedMiningOptionIds);
    assert |us| == |multiset(us)| == |multiset(vs)| == |vs|;
  }

  /**
   * When nobody's likes repeat an id, no id gets more likes than there are users, and the
   * count reaches the number of users exactly when every user liked it.
   */
  lemma {:induction false} LikeCountOfDistinctLikes(users: seq<User>, id: Id)
    requires forall i :: 0 <= i < |users| ==> NoDuplicates(users[i].likedMiningOptionIds)
    ensures LikeCount(users, id) <= |users|
    ensures LikeCount(users, id) == |users| <==> forall i :: 0 <= i < |users| ==> id in users[i].likedMiningOptionIds
    decreases |users|
  {
    if |users| > 0 {
      var liked := users[0].likedMiningOptionIds;
      LikedIdsCons(users);
      LikeCountOfDistinctLikes(users[1..], id);
      assert LikeCount(users, id) == Occurrences(liked, id) + LikeCount(users[1..], id);
      AtMostOnce(liked, id);
      assert forall i :: 1 <= i < |users| ==> users[1..][i - 1] == users[i];
    }
  }

  lemma {:induction false} AtMostOnce(s: seq<Id>, x: Id)
    requires NoDuplicates(s)
    ensures Occurrences(s, x) <= 1
    ensures Occurrences(s, x) == 1 <==> x in s
    decreases |s|
  {
    if |s| > 0 {
      assert s == [s[0]] + s[1..];
      assert multiset(s) == multiset{s[0]} + multiset(s[1..]);
      AtMostOnce(s[1..], x);
      if s[0] == x {
        assert x !in s[1..];
      }
    }
  }

  /** Without repeated likes, an id is unanimous exactly when there are users and every one of them liked it. */
  lemma UnanimityMeansEveryoneLiked(users: seq<User>, id: Id)
    requires forall i :: 0 <= i < |users| ==> NoDuplicates(users[i].likedMiningOptionIds)
    ensures IsUnanimous(users, id) <==> |users| > 0 && forall i :: 0 <= i < |users| ==> id in users[i].likedMiningOptionIds
  {
    LikeCountOfDistinctLikes(users, id);
  }

  /** The rule counts likes, not users: one user liking an id twice stands in for another who did not. */
  lemma RepeatedLikesCanStandInForAUser()
    ensures var users := [User("a", ["x", "x"]), User("b", [])];
            IsUnanimous(users, "x") && "x" !in users[1].likedMiningOptionIds
  {
    var users := [User("a", ["x", "x"]), User("b", [])];
    LikedIdsCons(users);
    LikedIdsCons(users[1..]);
    assert LikedIds(users) == ["x", "x"];
  }

  /** With nobody connected no key is ever found, whatever the accumulator's prototype. */
  lemma NoUsersNoMatch(proto: Prototype)
    requires proto.methods !! proto.accessors
    ensures UnanimousKey([], proto) == None
  {
  }

  /** No id that names an Object.prototype property can win in the code as written. */
  lemma PrototypeNamesNeverWin(users: seq<User>, id: Id)
    requires id in ObjectPrototype.methods || id in ObjectPrototype.accessors
    ensures UnanimousKey(users, ObjectPrototype) != Some(id)
  {
  }

  /** Every element of the flattened likes is somebody's like. */
  lemma LikedIdsOrdinary(users: seq<User>)
    requires forall i, j :: 0 <= i < |users| && 0 <= j < |users[i].likedMiningOptionIds| ==>
      OrdinaryId(users[i].likedMiningOptionIds[j])
    ensures forall k :: 0 <= k < |LikedIds(users)| ==> OrdinaryId(LikedIds(users)[k])
  {
    var ids := LikedIds(users);
    forall k | 0 <= k < |ids| ensures OrdinaryId(ids[k]) {
      assert ids[k] in ids;
      var i :| 0 <= i < |users| && ids[k] in users[i].likedMiningOptionIds;
      var j :| 0 <= j < |users[i].likedMiningOptionIds| && users[i].likedMiningOptionIds[j] == ids[k];
    }
  }

  /** An id that names no property of Object.prototype. */
  predicate NotPrototypeName(id: Id) {
    id !in ObjectPrototype.methods && id !in ObjectPrototype.accessors
  }

  /** An id the code as written handles like any other: non-empty and not an Object.prototype name. */
  predicate OrdinaryId(id: Id) {
    id != "" && NotPrototypeName(id)
  }

  /**
   * When no liked id is empty or an Object.prototype name, the code as written and the
   * corrected update agree.
   */
  lemma UpdateAgreesOnOrdinaryIds(s: Stage)
    requires forall i, j :: 0 <= i < |s.users| && 0 <= j < |s.users[i].likedMiningOptionIds| ==>
      OrdinaryId(s.users[i].likedMiningOptionIds[j])
    ensures UpdateStageAsWritten(s) == UpdateStage(s)
  {
    var key := UnanimousKey(s.users, ObjectPrototype);
    UnanimousKeysAgree(s.users);
    if key.Some? {
      assert key.value != "";
      assert UpdateStageAsWritten(s) == Complete(s, key.value);
    } else {
      assert UpdateStageAsWritten(s) == s;
    }
  }

  /** On a chat whose likes are all ordinary ids, the table update as written and the corrected one agree. */
  lemma TableUpdatesAgreeOnOrdinaryIds(stages: map<string, Stage>, chatInstanceId: string)
    requires chatInstanceId in stages ==>
      var s := stages[chatInstanceId];
      forall i, j :: 0 <= i < |s.users| && 0 <= j < |s.users[i].likedMiningOptionIds| ==>
        OrdinaryId(s.users[i].likedMiningOptionIds[j])
    ensures UpdateMiningSimulationState(stages, chatInstanceId) == UpdateMiningSimulationStateCorrected(stages, chatInstanceId)
  {
    if chatInstanceId in stages {
      UpdateAgreesOnOrdinaryIds(stages[chatInstanceId]);
    }
  }

  lemma UnanimousKeysAgree(users: seq<User>)
    requires forall i, j :: 0 <= i < |users| && 0 <= j < |users[i].likedMiningOptionIds| ==>
      OrdinaryId(users[i].likedMiningOptionIds[j])
    ensures UnanimousKey(users, ObjectPrototype) == UnanimousKey(users, NullPrototype)
    ensures UnanimousKey(users, ObjectPrototype) != Some("")
  {
    TalliesAgree(users);
    var key := UnanimousKey(users, NullPrototype);
    if key.Some? {
      UnanimousIdIsLiked(users, key.value);
    }
  }

  /** Without Object.prototype names among the likes, both accumulators find the same key. */
  lemma TalliesAgree(users: seq<User>)
    requires forall i, j :: 0 <= i < |users| && 0 <= j < |users[i].likedMiningOptionIds| ==>
      NotPrototypeName(users[i].likedMiningOptionIds[j])
    ensures Tallied(users, ObjectPrototype) == Tallied(users, NullPrototype)
    ensures UnanimousKey(users, ObjectPrototype) == UnanimousKey(users, NullPrototype)
  {
    var ids := LikedIds(users);
    forall k | 0 <= k < |ids| ensures NotPrototypeName(ids[k]) {
      assert ids[k] in ids;
      var i :| 0 <= i < |users| && ids[k] in users[i].likedMiningOptionIds;
      var j :| 0 <= j < |users[i].likedMiningOptionIds| && users[i].likedMiningOptionIds[j] == ids[k];
    }
    PrototypeIrrelevantForOrdinaryIds(ids);
  }

  lemma UnanimousIdIsLiked(users: seq<User>, id: Id)
    requires forall i, j :: 0 <= i < |users| && 0 <= j < |users[i].likedMiningOptionIds| ==>
      OrdinaryId(users[i].likedMiningOptionIds[j])
    requires IsUnanimous(users, id)
    ensures OrdinaryId(id)
  {
    var ids := LikedIds(users);
    LikedIdsOrdinary(users);
    assert id in multiset(ids);
    var k :| 0 <= k < |ids| && ids[k] == id;
  }
}
