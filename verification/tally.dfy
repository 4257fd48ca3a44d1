/**
 * The `reduce` in updateMiningSimulationState: every liked id bumps a counter stored as a
 * property of an accumulator object, `acc[id] = (acc[id] || 0) + 1`.
 *
 * The accumulator starts as `{}`, which inherits from Object.prototype. A lookup of an id
 * that names an inherited property finds that property instead of `undefined`. The model
 * keeps the prototype as a parameter: `ObjectPrototype` is what the code does,
 * `NullPrototype` is a prototype-less dictionary (`Object.create(null)` or a `Map`).
 */
module Tally {

  type Id = string

  /** The reference count: occurrences of `x` in `s`. */
  function Occurrences(s: seq<Id>, x: Id): nat {
    multiset(s)[x]
  }

  /** A tally stored in the accumulator: a number, or a string produced by `+` on a non-number. */
  datatype Value = Num(n: nat) | Text

  /** What `acc[id]` reads: an own property, an inherited one, or `undefined`. */
  datatype Lookup = Own(v: Value) | Inherited | Absent

  /**
   * The names a prototype supplies: `methods` are inherited data properties (functions),
   * `accessors` are inherited setters that ignore a primitive value (`__proto__`).
   */
  datatype Prototype = Prototype(methods: set<Id>, accessors: set<Id>)

  /** Section 20.1.3 of ECMAScript 2024: the properties of the Object prototype object. */
  const ObjectPrototype: Prototype := Prototype(
    {"constructor", "hasOwnProperty", "isPrototypeOf", "propertyIsEnumerable",
     "toLocaleString", "toString", "valueOf",
     "__defineGetter__", "__defineSetter__", "__lookupGetter__", "__lookupSetter__"},
    {"__proto__"})

  const NullPrototype: Prototype := Prototype({}, {})

  /** An accumulator object: own keys in creation order and their values. */
  datatype Obj = Obj(keys: seq<Id>, props: map<Id, Value>)

  predicate NoDuplicates(s: seq<Id>) {
    forall i, j :: 0 <= i < j < |s| ==> s[i] != s[j]
  }

  /** Index of the first occurrence of `x` in `s`. */
  function FirstIndex(s: seq<Id>, x: Id): (i: nat)
    requires x in s
    ensures i < |s| && s[i] == x
    ensures forall j :: 0 <= j < i ==> s[j] != x
  {
    if s[0] == x then 0 else 1 + FirstIndex(s[1..], x)
  }

  lemma {:induction false} FirstIndexAppend(s: seq<Id>, y: Id, x: Id)
    requires x in s
    ensures FirstIndex(s + [y], x) == FirstIndex(s, x)
    decreases |s|
  {
    if s[0] != x {
      assert (s + [y])[1..] == s[1..] + [y];
      FirstIndexAppend(s[1..], y, x);
    }
  }

  lemma FirstIndexOfNew(s: seq<Id>, y: Id)
    requires y !in s
    ensures FirstIndex(s + [y], y) == |s|
  {
  }

  /** Keys listed in the order their first occurrence appears in `ids`. */
  ghost predicate InFirstOccurrenceOrder(keys: seq<Id>, ids: seq<Id>) {
    forall i, j :: 0 <= i < j < |keys| ==>
      keys[i] in ids && keys[j] in ids && FirstIndex(ids, keys[i]) < FirstIndex(ids, keys[j])
  }

  /** One instance of `InFirstOccurrenceOrder`. */
  lemma OrderedPair(keys: seq<Id>, ids: seq<Id>, i: int, j: int)
    requires InFirstOccurrenceOrder(keys, ids) && 0 <= i < j < |keys|
    ensures keys[i] in ids && keys[j] in ids && FirstIndex(ids, keys[i]) < FirstIndex(ids, keys[j])
  {
  }

  function Get(o: Obj, proto: Prototype, k: Id): Lookup {
    if k in o.props then Own(o.props[k])
    else if k in proto.methods || k in proto.accessors then Inherited
    else Absent
  }

  /**
   * `(acc[k] || 0) + 1`. A number stays a number (a stored count is at least 1, hence
   * truthy); `undefined` becomes 0 + 1; a string or an inherited function or object is
   * truthy, and `+ 1` then concatenates text.
   */
  function Bumped(l: Lookup): Value {
    match l
    case Own(Num(n)) => Num(n + 1)
    case Own(Text) => Text
    case Inherited => Text
    case Absent => Num(1)
  }

  /** `acc[k] = v`: an own property is overwritten, an inherited setter ignores a primitive, otherwise a property is created. */
  function Put(o: Obj, proto: Prototype, k: Id, v: Value): Obj {
    if k in o.props then Obj(o.keys, o.props[k := v])
    else if k in proto.accessors then o
    else Obj(o.keys + [k], o.props[k := v])
  }

  function Step(o: Obj, proto: Prototype, k: Id): Obj {
    Put(o, proto, k, Bumped(Get(o, proto, k)))
  }

  /**
   * `ids.reduce((acc, id) => (acc[id] = (acc[id] || 0) + 1, acc), {})`.
   * Every id that no inherited setter swallows becomes a key exactly once, in order of
   * first occurrence; a key not named by the prototype holds its number of occurrences,
   * and one that is holds text.
   */
  function Reduce(ids: seq<Id>, proto: Prototype): (o: Obj)
    requires proto.methods !! proto.accessors
    ensures NoDuplicates(o.keys)
    ensures forall k :: k in o.keys <==> k in o.props
    ensures forall k :: k in o.props <==> k in ids && k !in proto.accessors
    ensures forall k :: k in o.props && k !in proto.methods ==> o.props[k] == Num(Occurrences(ids, k))
    ensures forall k :: k in o.props && k in proto.methods ==> o.props[k] == Text
    ensures InFirstOccurrenceOrder(o.keys, ids)
  {
    if |ids| == 0 then Obj([], map[])
    else
      var prefix := ids[..|ids| - 1];
      var last := ids[|ids| - 1];
      var acc := Reduce(prefix, proto);
      assert ids == prefix + [last];
      ReduceStep(prefix, last, proto, acc);
      Step(acc, proto, last)
  }

  /** The facts `Reduce` promises about an accumulator built from `ids`. */
  ghost predicate TallyOf(o: Obj, ids: seq<Id>, proto: Prototype) {
    && NoDuplicates(o.keys)
    && (forall k :: k in o.keys <==> k in o.props)
    && (forall k :: k in o.props <==> k in ids && k !in proto.accessors)
    && (forall k :: k in o.props && k !in proto.methods ==> o.props[k] == Num(Occurrences(ids, k)))
    && (forall k :: k in o.props && k in proto.methods ==> o.props[k] == Text)
    && InFirstOccurrenceOrder(o.keys, ids)
  }

  lemma ReduceStep(prefix: seq<Id>, last: Id, proto: Prototype, acc: Obj)
    requires proto.methods !! proto.accessors
    requires TallyOf(acc, prefix, proto)
    ensures TallyOf(Step(acc, proto, last), prefix + [last], proto)
  {
    var o := Step(acc, proto, last);
    var ids := prefix + [last];
    assert multiset(ids) == multiset(prefix) + multiset{last};
    assert forall k :: k in ids <==> k in prefix || k == last;
    StepValues(prefix, last, proto, acc);
    if last in acc.props || last in proto.accessors {
      StepOrderOld(prefix, last, acc);
    } else {
      StepOrderNew(prefix, last, acc);
    }
  }

  lemma StepValues(prefix: seq<Id>, last: Id, proto: Prototype, acc: Obj)
    requires proto.methods !! proto.accessors
    requires TallyOf(acc, prefix, proto)
    ensures var o := Step(acc, proto, last);
            var ids := prefix + [last];
            && (forall k :: k in o.keys <==> k in o.props)
            && (forall k :: k in o.props <==> k in ids && k !in proto.accessors)
            && (forall k :: k in o.props && k !in proto.methods ==> o.props[k] == Num(Occurrences(ids, k)))
            && (forall k :: k in o.props && k in proto.methods ==> o.props[k] == Text)
  {
    var o := Step(acc, proto, last);
    var ids := prefix + [last];
    assert multiset(ids) == multiset(prefix) + multiset{last};
    forall k | k in o.props && k !in proto.methods
      ensures o.props[k] == Num(Occurrences(ids, k))
    {
      StepCount(prefix, last, proto, acc, k);
    }
    forall k ensures k in o.props <==> k in ids && k !in proto.accessors {
      assert k in ids <==> k in prefix || k == last;
    }
  }

  /** The count of one key after one more id. */
  lemma StepCount(prefix: seq<Id>, last: Id, proto: Prototype, acc: Obj, k: Id)
    requires proto.methods !! proto.accessors
    requires TallyOf(acc, prefix, proto)
    requires k in Step(acc, proto, last).props && k !in proto.methods
    ensures Step(acc, proto, last).props[k] == Num(Occurrences(prefix + [last], k))
  {
    assert multiset(prefix + [last]) == multiset(prefix) + multiset{last};
    if k == last && last !in acc.props {
      assert last !in prefix;
    }
  }

  lemma StepOrderOld(prefix: seq<Id>, last: Id, acc: Obj)
    requires forall k :: k in acc.keys ==> k in prefix
    requires InFirstOccurrenceOrder(acc.keys, prefix)
    ensures InFirstOccurrenceOrder(acc.keys, prefix + [last])
  {
    forall i | 0 <= i < |acc.keys| ensures acc.keys[i] in prefix + [last] {
      assert acc.keys[i] in prefix;
    }
    forall i, j | 0 <= i < j < |acc.keys|
      ensures acc.keys[i] in prefix + [last] && acc.keys[j] in prefix + [last] &&
              FirstIndex(prefix + [last], acc.keys[i]) < FirstIndex(prefix + [last], acc.keys[j])
    {
      AppendKeepsPair(acc.keys, prefix, last, i, j);
    }
  }

  lemma AppendKeepsPair(keys: seq<Id>, prefix: seq<Id>, last: Id, i: int, j: int)
    requires InFirstOccurrenceOrder(keys, prefix) && 0 <= i < j < |keys|
    ensures var ids := prefix + [last];
            keys[i] in ids && keys[j] in ids && FirstIndex(ids, keys[i]) < FirstIndex(ids, keys[j])
  {
    OrderedPair(keys, prefix, i, j);
    FirstIndexAppend(prefix, last, keys[i]);
    FirstIndexAppend(prefix, last, keys[j]);
  }

  lemma StepOrderNew(prefix: seq<Id>, last: Id, acc: Obj)
    requires NoDuplicates(acc.keys)
    requires forall k :: k in acc.keys ==> k in prefix
    requires last !in prefix
    requires InFirstOccurrenceOrder(acc.keys, prefix)
    ensures NoDuplicates(acc.keys + [last])
    ensures InFirstOccurrenceOrder(acc.keys + [last], prefix + [last])
  {
    var ids := prefix + [last];
    var keys := acc.keys + [last];
    forall k | k in prefix ensures FirstIndex(ids, k) == FirstIndex(prefix, k) {
      FirstIndexAppend(prefix, last, k);
    }
    FirstIndexOfNew(prefix, last);
    forall i, j | 0 <= i < j < |keys|
      ensures keys[i] in ids && keys[j] in ids && FirstIndex(ids, keys[i]) < FirstIndex(ids, keys[j])
    {
      assert keys[i] == acc.keys[i];
      if j < |acc.keys| {
        assert keys[j] == acc.keys[j];
      }
    }
  }

  /** With a prototype-less accumulator the tally holds exactly the liked ids and their counts. */
  lemma NullPrototypeTally(ids: seq<Id>)
    ensures var o := Reduce(ids, NullPrototype);
            forall k :: k in o.props <==> Occurrences(ids, k) > 0
    ensures var o := Reduce(ids, NullPrototype);
            forall k :: k in o.props ==> o.props[k] == Num(Occurrences(ids, k)) && o.props[k].n >= 1
  {
  }

  /** When no id is an Object.prototype name, the real accumulator behaves like a prototype-less one. */
  lemma {:induction false} PrototypeIrrelevantForOrdinaryIds(ids: seq<Id>)
    requires forall i :: 0 <= i < |ids| ==> ids[i] !in ObjectPrototype.methods && ids[i] !in ObjectPrototype.accessors
    ensures Reduce(ids, ObjectPrototype) == Reduce(ids, NullPrototype)
    decreases |ids|
  {
    if |ids| > 0 {
      PrototypeIrrelevantForOrdinaryIds(ids[..|ids| - 1]);
    }
  }
}
