/**
 * The per-chat session record ("stage") the server keeps in `stages`, and the literal
 * `defaultStage` a fresh one starts from.
 */
module Stage {
  import opened Wrappers
  import opened Tally

  /** The four state names the client switches on. */
  datatype State = Setup | MiningSimulation | MiningCompleted | MiningNotCompleted

  function StateName(s: State): string {
    match s
    case Setup => "setup"
    case MiningSimulation => "miningSimulation"
    case MiningCompleted => "miningCompleted"
    case MiningNotCompleted => "miningNotCompleted"
  }

  /** Reads a state name back; any other text is not a state. */
  function ParseState(name: string): (r: Option<State>)
    ensures r.Some? ==> StateName(r.value) == name
    ensures r.None? ==> forall s: State :: StateName(s) != name
  {
    if name == "setup" then Some(Setup)
    else if name == "miningSimulation" then Some(MiningSimulation)
    else if name == "miningCompleted" then Some(MiningCompleted)
    else if name == "miningNotCompleted" then Some(MiningNotCompleted)
    else None
  }

  /** Every state survives the trip through its name, so distinct states have distinct names. */
  lemma StateNameRoundTrip(s: State)
    ensures ParseState(StateName(s)) == Some(s)
  {
  }

  /** A connected client: its connection id and the ids of the options it swiped right on. */
  datatype User = User(connectionId: string, likedMiningOptionIds: seq<Id>)

  /** A candidate from the catalog; only `id` matters here, the rest is display payload. */
  datatype MiningOption = MiningOption(id: Id, name: string)

  /** One of the two shared selections, `{ id, name }`. */
  datatype Choice = Choice(id: string, name: string)

  datatype Stage = Stage(
    users: seq<User>,
    miningOptions: seq<MiningOption>,
    state: State,
    selectedMiningOption: Option<MiningOption>)

  /** The values the default literal gives its properties. */
  datatype Field =
    | UsersField(users: seq<User>)
    | ChoicesField(tool: Choice, location: Choice)
    | OptionsField(options: seq<MiningOption>)
    | StateField(state: State)
    | SelectedField(selected: Option<MiningOption>)

  /** Whether some property definition in `props` uses the name `k`. */
  ghost predicate Defines(props: seq<(string, Field)>, k: string) {
    exists i :: 0 <= i < |props| && props[i].0 == k
  }

  /** Whether the definition at `i` is the last one using its name. */
  ghost predicate LastDefinition(props: seq<(string, Field)>, i: int)
    requires 0 <= i < |props|
  {
    forall j :: i < j < |props| ==> props[j].0 != props[i].0
  }

  /**
   * Evaluating an object literal: each `name: value` defines (or redefines) a property,
   * so a name written twice ends up with the value written last.
   */
  function EvalObjectLiteral(props: seq<(string, Field)>): (m: map<string, Field>)
    ensures forall k :: k in m <==> Defines(props, k)
    ensures forall i :: 0 <= i < |props| && LastDefinition(props, i) ==>
              props[i].0 in m && m[props[i].0] == props[i].1
  {
    if |props| == 0 then map[]
    else
      var init := props[..|props| - 1];
      var m := EvalObjectLiteral(init);
      EvalStep(props, m);
      m[props[|props| - 1].0 := props[|props| - 1].1]
  }

  lemma EvalStep(props: seq<(string, Field)>, m: map<string, Field>)
    requires |props| > 0
    requires forall k :: k in m <==> Defines(props[..|props| - 1], k)
    requires forall i :: 0 <= i < |props| - 1 && LastDefinition(props[..|props| - 1], i) ==>
               props[i].0 in m && m[props[i].0] == props[i].1
    ensures var m' := m[props[|props| - 1].0 := props[|props| - 1].1];
            && (forall k :: k in m' <==> Defines(props, k))
            && (forall i :: 0 <= i < |props| && LastDefinition(props, i) ==> props[i].0 in m' && m'[props[i].0] == props[i].1)
  {
    var n := |props| - 1;
    var init := props[..n];
    var m' := m[props[n].0 := props[n].1];
    forall k ensures k in m' <==> Defines(props, k) {
      if Defines(props, k) && k != props[n].0 {
        var i :| 0 <= i < |props| && props[i].0 == k;
        assert init[i].0 == k;
      }
      if Defines(init, k) {
        var i :| 0 <= i < |init| && init[i].0 == k;
        assert props[i].0 == k;
      }
    }
    forall i | 0 <= i < |props| && LastDefinition(props, i)
      ensures props[i].0 in m' && m'[props[i].0] == props[i].1
    {
      if i < n {
        assert props[i].0 != props[n].0;
        assert LastDefinition(init, i);
        assert init[i] == props[i];
      }
    }
  }

  const AnyChoice := Choice("Any", "Any")

  /** The `defaultStage` literal as written, `miningOptions` twice. */
  const DefaultStageLiteral: seq<(string, Field)> := [
    ("users", UsersField([])),
    ("miningOptions", ChoicesField(AnyChoice, AnyChoice)),
    ("state", StateField(Setup)),
    ("miningOptions", OptionsField([])),
    ("selectedMiningOption", SelectedField(None))
  ]

  /** Reads a stage out of an evaluated object; `None` when a property is missing or of the wrong kind. */
  function StageOfObject(m: map<string, Field>): (r: Option<Stage>)
    ensures r.Some? <==>
      && "users" in m && m["users"].UsersField?
      && "miningOptions" in m && m["miningOptions"].OptionsField?
      && "state" in m && m["state"].StateField?
      && "selectedMiningOption" in m && m["selectedMiningOption"].SelectedField?
    ensures r.Some? ==>
      && r.value.users == m["users"].users
      && r.value.miningOptions == m["miningOptions"].options
      && r.value.state == m["state"].state
      && r.value.selectedMiningOption == m["selectedMiningOption"].selected
  {
    if "users" in m && "miningOptions" in m && "state" in m && "selectedMiningOption" in m then
      match (m["users"], m["miningOptions"], m["state"], m["selectedMiningOption"])
      case (UsersField(us), OptionsField(os), StateField(st), SelectedField(sel)) =>
        Some(Stage(us, os, st, sel))
      case _ => None
    else None
  }

  function DefaultStage(): Option<Stage> {
    StageOfObject(EvalObjectLiteral(DefaultStageLiteral))
  }

  /** The shape of the `defaultStage` literal, stated entry by entry. */
  ghost predicate ShapedLikeDefault(lit: seq<(string, Field)>) {
    && |lit| == 5
    && lit[0] == ("users", UsersField([]))
    && lit[1] == ("miningOptions", ChoicesField(AnyChoice, AnyChoice))
    && lit[2] == ("state", StateField(Setup))
    && lit[3] == ("miningOptions", OptionsField([]))
    && lit[4] == ("selectedMiningOption", SelectedField(None))
  }

  lemma DefaultLiteralShape()
    ensures ShapedLikeDefault(DefaultStageLiteral)
  {
  }

  /** The properties a literal of that shape evaluates to. */
  lemma EvalDefaultShape(lit: seq<(string, Field)>)
    requires ShapedLikeDefault(lit)
    ensures var m := EvalObjectLiteral(lit);
            && "users" in m && m["users"] == UsersField([])
            && "miningOptions" in m && m["miningOptions"] == OptionsField([])
            && "state" in m && m["state"] == StateField(Setup)
            && "selectedMiningOption" in m && m["selectedMiningOption"] == SelectedField(None)
  {
    assert LastDefinition(lit, 0);
    assert LastDefinition(lit, 2);
    assert LastDefinition(lit, 3);
    assert LastDefinition(lit, 4);
  }

  /**
   * The second `miningOptions` overrides the first: the default stage's options are the
   * empty list, and the `{ tool, location }` record is gone.
   */
  lemma DefaultMiningOptionsOverridden()
    ensures var m := EvalObjectLiteral(DefaultStageLiteral);
            "miningOptions" in m && m["miningOptions"] == OptionsField([])
  {
    DefaultLiteralShape();
    EvalDefaultShape(DefaultStageLiteral);
  }

  /** A fresh stage: in setup, nobody connected, no options, nothing selected. */
  lemma DefaultStageIsFreshSetup()
    ensures DefaultStage() == Some(Stage([], [], Setup, None))
  {
    DefaultLiteralShape();
    EvalDefaultShape(DefaultStageLiteral);
  }
}
