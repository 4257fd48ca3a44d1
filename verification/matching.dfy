/**
 * `updateMiningSimulationState`: count every like across the users of one chat, pick a
 * key whose count equals the number of users, and, if one is found, select the matching
 * candidate and move the stage to `miningCompleted`.
 */
module Matching {
  import opened Wrappers
  import opened Tally
  import opened Stage
  import JsArray
  import PropertyKeys

  /** `users.flatMap(user => user.likedMiningOptionIds)`. */
  function LikedIds(users: seq<User>): (ids: seq<Id>)
    ensures forall id :: id in ids <==> exists i :: 0 <= i < |users| && id in users[i].likedMiningOptionIds
  {
    var f := (u: User) => u.likedMiningOptionIds;
    assert forall id :: id in JsArray.FlatMap(users, f) <==> exists i :: 0 <= i < |users| && id in f(users[i]) by {
      forall id ensures id in JsArray.FlatMap(users, f) <==> exists i :: 0 <= i < |users| && id in f(users[i]) {
        JsArray.FlatMapMembers(users, f, id);
      }
    }
    JsArray.FlatMap(users, f)
  }

  /** How many likes `id` received, over all users. */
  function LikeCount(users: seq<User>, id: Id): nat {
    Occurrences(LikedIds(users), id)
  }

  /** The consensus rule: at least one user, and as many likes of `id` as there are users. */
  predicate IsUnanimous(users: seq<User>, id: Id) {
    |users| > 0 && LikeCount(users, id) == |users|
  }

  /** The `find` callback: the key's tally is the number `n` (`===`, so text never matches). */
  function Qualifies(o: Obj, n: nat): Id -> bool {
    k => k in o.props && o.props[k] == Num(n)
  }

  function Tallied(users: seq<User>, proto: Prototype): Obj
    requires proto.methods !! proto.accessors
  {
    Reduce(LikedIds(users), proto)
  }

  /**
   * `Object.keys(counts).find(id => counts[id] === users.length)` over the tally built
   * with prototype `proto`. A key is found exactly when some id outside the prototype's
   * names is unanimous, and the key found is such an id.
   */
  function UnanimousKey(users: seq<User>, proto: Prototype): (r: Option<Id>)
    requires proto.methods !! proto.accessors
    ensures r.Some? ==> IsUnanimous(users, r.value) && r.value !in proto.methods && r.value !in proto.accessors
    ensures r.None? <==> forall id :: id !in proto.methods && id !in proto.accessors ==> !IsUnanimous(users, id)
  {
    var o := Tallied(users, proto);
    var r := JsArray.Find(PropertyKeys.OwnKeys(o.keys), Qualifies(o, |users|));
    PropertyKeys.FindInOwnKeys(o.keys, Qualifies(o, |users|));
    QualifiesIffUnanimous(users, proto);
    r
  }

  lemma QualifiesIffUnanimous(users: seq<User>, proto: Prototype)
    requires proto.methods !! proto.accessors
    ensures var o := Tallied(users, proto);
            forall k :: (k in o.keys && Qualifies(o, |users|)(k)) <==>
              (IsUnanimous(users, k) && k !in proto.methods && k !in proto.accessors)
  {
    var ids := LikedIds(users);
    forall k | IsUnanimous(users, k) ensures k in ids {
      assert k in multiset(ids);
    }
  }

  /** Keeping only the non-index keys keeps their relative order. */
  lemma {:induction false} NamedKeysKeepOrder(keys: seq<Id>, ids: seq<Id>)
    requires InFirstOccurrenceOrder(keys, ids)
    ensures InFirstOccurrenceOrder(PropertyKeys.NamedKeys(keys), ids)
    decreases |keys|
  {
    if |keys| > 0 {
      var tail := keys[1..];
      assert InFirstOccurrenceOrder(tail, ids) by {
        forall i, j | 0 <= i < j < |tail|
          ensures tail[i] in ids && tail[j] in ids && FirstIndex(ids, tail[i]) < FirstIndex(ids, tail[j])
        {
          assert tail[i] == keys[i + 1] && tail[j] == keys[j + 1];
        }
      }
      NamedKeysKeepOrder(tail, ids);
      var nt := PropertyKeys.NamedKeys(tail);
      var n := PropertyKeys.NamedKeys(keys);
      if !PropertyKeys.IsArrayIndex(keys[0]) {
        assert n == [keys[0]] + nt;
        forall i, j | 0 <= i < j < |n|
          ensures n[i] in ids && n[j] in ids && FirstIndex(ids, n[i]) < FirstIndex(ids, n[j])
        {
          if i == 0 {
            assert n[j] == nt[j - 1] && nt[j - 1] in tail;
            var q :| 0 <= q < |tail| && tail[q] == n[j];
            assert keys[q + 1] == n[j];
          } else {
            assert n[i] == nt[i - 1] && n[j] == nt[j - 1];
          }
        }
      } else {
        assert n == nt;
      }
    }
  }

  /**
   * Which unanimous id the key order picks: an array-index id (`"0"`, `"42"`) of least
   * value if any is unanimous; otherwise the unanimous id whose first like comes first in
   * the flattened like list (users in join order, each user's likes in order).
   */
  lemma UnanimousKeyChoice(users: seq<User>, proto: Prototype)
    requires proto.methods !! proto.accessors
    ensures var r := UnanimousKey(users, proto);
            r.Some? && PropertyKeys.IsArrayIndex(r.value) ==>
              forall id :: IsUnanimous(users, id) && id !in proto.methods && id !in proto.accessors && PropertyKeys.IsArrayIndex(id) ==>
                PropertyKeys.IndexValue(r.value) <= PropertyKeys.IndexValue(id)
    ensures var r := UnanimousKey(users, proto);
            r.Some? && !PropertyKeys.IsArrayIndex(r.value) ==>
              && (forall id :: IsUnanimous(users, id) && id !in proto.methods && id !in proto.accessors ==> !PropertyKeys.IsArrayIndex(id))
              && forall id :: IsUnanimous(users, id) && id !in proto.methods && id !in proto.accessors && id != r.value ==>
                   id in LikedIds(users) && r.value in LikedIds(users) &&
                   FirstIndex(LikedIds(users), r.value) < FirstIndex(LikedIds(users), id)
  {
    var o := Tallied(users, proto);
    PropertyKeys.FindInOwnKeys(o.keys, Qualifies(o, |users|));
    QualifiesIffUnanimous(users, proto);
    var r := UnanimousKey(users, proto);
    assert r == JsArray.Find(PropertyKeys.OwnKeys(o.keys), Qualifies(o, |users|));
    if r.Some? && !PropertyKeys.IsArrayIndex(r.value) {
      FirstNamedKeyComesFirst(o.keys, LikedIds(users), Qualifies(o, |users|), r.value);
    }
  }

  /**
   * A sole unanimous id outside the prototype's names is the key found, whatever its
   * form (array index or not, empty or not).
   */
  lemma SoleUnanimousIdWins(users: seq<User>, proto: Prototype, w: Id)
    requires proto.methods !! proto.accessors
    requires IsUnanimous(users, w) && w !in proto.methods && w !in proto.accessors
    requires forall id :: IsUnanimous(users, id) && id !in proto.methods && id !in proto.accessors ==> id == w
    ensures UnanimousKey(users, proto) == Some(w)
  {
    var r := UnanimousKey(users, proto);
    assert r.Some?;
  }

  /**
   * The choice is determined: when no unanimous id outside the prototype's names is an
   * array index, the one liked first (in the flattened like list) is the key found.
   */
  lemma FirstLikedNamedIdWins(users: seq<User>, proto: Prototype, w: Id)
    requires proto.methods !! proto.accessors
    requires IsUnanimous(users, w) && w !in proto.methods && w !in proto.accessors
    requires !PropertyKeys.IsArrayIndex(w)
    requires forall id :: IsUnanimous(users, id) && id !in proto.methods && id !in proto.accessors && id != w ==>
      !PropertyKeys.IsArrayIndex(id) && FirstIndex(LikedIds(users), w) < FirstIndex(LikedIds(users), id)
    ensures UnanimousKey(users, proto) == Some(w)
  {
    UnanimousKeyChoice(users, proto);
    var r := UnanimousKey(users, proto);
    var ids := LikedIds(users);
    assert r.Some? && IsUnanimous(users, r.value);
    var v := r.value;
    assert v in multiset(ids) && w in multiset(ids);
    var iv, iw := FirstIndex(ids, v), FirstIndex(ids, w);
    assert v == w || !PropertyKeys.IsArrayIndex(v);
    assert v == w || iw < iv;
    assert v == w || iv < iw;
  }

  /**
   * The choice is determined: the unanimous array-index id of least value, among those
   * outside the prototype's names, is the key found.
   */
  lemma LeastIndexIdWins(users: seq<User>, proto: Prototype, w: Id)
    requires proto.methods !! proto.accessors
    requires IsUnanimous(users, w) && w !in proto.methods && w !in proto.accessors
    requires PropertyKeys.IsArrayIndex(w)
    requires forall id ::
      (IsUnanimous(users, id) && id !in proto.methods && id !in proto.accessors && id != w && PropertyKeys.IsArrayIndex(id))
      ==> PropertyKeys.IndexValue(w) < PropertyKeys.IndexValue(id)
    ensures UnanimousKey(users, proto) == Some(w)
  {
    UnanimousKeyChoice(users, proto);
    var r := UnanimousKey(users, proto);
    assert r.Some? && IsUnanimous(users, r.value);
    var v := r.value;
    assert v == w || PropertyKeys.IsArrayIndex(v);
    assert v == w || PropertyKeys.IndexValue(v) <= PropertyKeys.IndexValue(w);
    assert v == w || PropertyKeys.IndexValue(w) < PropertyKeys.IndexValue(v);
  }

  lemma FirstNamedKeyComesFirst(keys: seq<Id>, ids: seq<Id>, p: Id -> bool, w: Id)
    requires InFirstOccurrenceOrder(keys, ids)
    requires JsArray.Find(PropertyKeys.NamedKeys(keys), p) == Some(w)
    ensures forall k :: k in keys && p(k) && !PropertyKeys.IsArrayIndex(k) && k != w ==>
              k in ids && w in ids && FirstIndex(ids, w) < FirstIndex(ids, k)
  {
    var named := PropertyKeys.NamedKeys(keys);
    NamedKeysKeepOrder(keys, ids);
    var m :| 0 <= m < |named| && named[m] == w && p(named[m]) && forall j :: 0 <= j < m ==> !p(named[j]);
    forall k | k in keys && p(k) && !PropertyKeys.IsArrayIndex(k) && k != w
      ensures k in ids && w in ids && FirstIndex(ids, w) < FirstIndex(ids, k)
    {
      assert k in named;
      var q :| 0 <= q < |named| && named[q] == k;
      assert p(named[q]) && q != m;
      OrderedPair(named, ids, m, q);
    }
  }

  /** `miningOptions.find(o => o.id == key)`: the first candidate carrying the key as its id. */
  function SelectOption(options: seq<MiningOption>, key: Id): (r: Option<MiningOption>)
    ensures r.None? <==> forall i :: 0 <= i < |options| ==> options[i].id != key
    ensures r.Some? ==> exists i :: 0 <= i < |options| && options[i] == r.value && r.value.id == key &&
                          forall j :: 0 <= j < i ==> options[j].id != key
  {
    JsArray.Find(options, (o: MiningOption) => o.id == key)
  }

  /** The effect of a found key: select its candidate and complete the simulation. */
  function Complete(s: Stage, key: Id): Stage {
    s.(selectedMiningOption := SelectOption(s.miningOptions, key), state := MiningCompleted)
  }

  /**
   * The code as written: the tally inherits from Object.prototype and the found key is
   * tested for truthiness, so a unanimous empty id is treated as no key at all.
   */
  function UpdateStageAsWritten(s: Stage): (r: Stage)
    ensures r.users == s.users && r.miningOptions == s.miningOptions
    ensures r == s || (r.state == MiningCompleted &&
      exists id :: IsUnanimous(s.users, id) && id != "" && r.selectedMiningOption == SelectOption(s.miningOptions, id))
    ensures (forall id :: !IsUnanimous(s.users, id)) ==> r == s
  {
    var key := UnanimousKey(s.users, ObjectPrototype);
    ObjectPrototypeKey(s.users);
    if key.Some? && key.value != "" then
      Complete(s, key.value)
    else
      s
  }

  /** With Object.prototype behind the tally, a key found is unanimous, and none is found without one. */
  lemma ObjectPrototypeKey(users: seq<User>)
    ensures var r := UnanimousKey(users, ObjectPrototype);
            && (r.Some? ==> IsUnanimous(users, r.value))
            && ((forall id :: !IsUnanimous(users, id)) ==> r.None?)
  {
  }

  /**
   * The evidently intended update: any unanimous id completes the simulation. Users and
   * candidates are left as they were; without a unanimous id nothing changes.
   */
  function UpdateStage(s: Stage): (r: Stage)
    ensures r.users == s.users && r.miningOptions == s.miningOptions
    ensures (exists id :: IsUnanimous(s.users, id)) ==>
      r.state == MiningCompleted &&
      exists id :: IsUnanimous(s.users, id) && r.selectedMiningOption == SelectOption(s.miningOptions, id)
    ensures (forall id :: !IsUnanimous(s.users, id)) ==> r == s
  {
    var key := UnanimousKey(s.users, NullPrototype);
    PrototypeLessKey(s.users);
    if key.Some? then
      Complete(s, key.value)
    else
      s
  }

  /** Without a prototype, a key is found exactly when some id is unanimous, and it is one. */
  lemma PrototypeLessKey(users: seq<User>)
    ensures var r := UnanimousKey(users, NullPrototype);
            && (r.Some? ==> IsUnanimous(users, r.value))
            && (r.None? <==> forall id :: !IsUnanimous(users, id))
  {
  }

  /** `find` on the candidates picks the first one when it carries the key. */
  lemma FirstOptionSelected(options: seq<MiningOption>, key: Id)
    requires |options| > 0 && options[0].id == key
    ensures SelectOption(options, key) == Some(options[0])
  {
    var r := SelectOption(options, key);
    var i :| 0 <= i < |options| && options[i] == r.value && r.value.id == key &&
              forall j :: 0 <= j < i ==> options[j].id != key;
    assert options[0].id == key;
  }

  /** Reading `users` of a stage that does not exist throws. */
  datatype Error = TypeError

  /** `updateMiningSimulationState(chatInstanceId)` on the table of stages, as written. */
  function UpdateMiningSimulationState(stages: map<string, Stage>, chatInstanceId: string): (r: Result<map<string, Stage>, Error>)
    ensures r.Err? <==> chatInstanceId !in stages
    ensures r.Ok? ==> r.value.Keys == stages.Keys
    ensures r.Ok? ==> forall c :: c in stages && c != chatInstanceId ==> r.value[c] == stages[c]
    ensures r.Ok? ==> r.value[chatInstanceId] == UpdateStageAsWritten(stages[chatInstanceId])
  {
    if chatInstanceId in stages then
      Ok(stages[chatInstanceId := UpdateStageAsWritten(stages[chatInstanceId])])
    else
      Err(TypeError)
  }

  /** The same table update with the corrected consensus step. */
  function UpdateMiningSimulationStateCorrected(stages: map<string, Stage>, chatInstanceId: string): (r: Result<map<string, Stage>, Error>)
    ensures r.Err? <==> chatInstanceId !in stages
    ensures r.Ok? ==> r.value.Keys == stages.Keys
    ensures r.Ok? ==> forall c :: c in stages && c != chatInstanceId ==> r.value[c] == stages[c]
    ensures r.Ok? ==> r.value[chatInstanceId] == UpdateStage(stages[chatInstanceId])
  {
    if chatInstanceId in stages then
      Ok(stages[chatInstanceId := UpdateStage(stages[chatInstanceId])])
    else
      Err(TypeError)
  }
}
