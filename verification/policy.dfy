/** The ILM policy name and the policy document the bootstrap code renders. */
module Policy {
  import opened Base
  import opened Text
  import opened Json

  /** The fixed thresholds: rollover at 300 GB or 30 days, delete after 90 days. */
  const RolloverSize: int := 300
  const RolloverAge: int := 30
  const DeleteAge: int := 90
  const PolicySuffix: string := "ilm-policy"

  /** The template every rendering starts from: `{"policy": {"phases": {}}}`. */
  const DefaultPolicy: Object := map["policy" := Obj(map["phases" := Obj(map[])])]

  /** The policy name derived from a logical name: `<name>-ilm-policy`. */
  function PolicyName(name: string): (r: string)
    ensures |r| == |name| + 11
    ensures r[..|name|] == name && r[|name|..] == "-ilm-policy"
  {
    name + "-" + PolicySuffix
  }

  /** The inverse of `PolicyName`: the logical name, if `p` is a policy name. */
  function BaseName(p: string): (r: Option<string>)
    ensures r.Some? ==> PolicyName(r.value) == p
  {
    StripSuffix(p, "-" + PolicySuffix)
  }

  lemma BaseNameOfPolicyName(name: string)
    ensures BaseName(PolicyName(name)) == Some(name)
  {
    assert PolicyName(name) == name + ("-" + PolicySuffix);
    StripAppendedSuffix(name, "-" + PolicySuffix);
  }

  /** Distinct logical names give distinct policy names. */
  lemma PolicyNameInjective(a: string, b: string)
    ensures PolicyName(a) == PolicyName(b) <==> a == b
  {
    assert PolicyName(a) == a + ("-" + PolicySuffix) && PolicyName(b) == b + ("-" + PolicySuffix);
    AppendSuffixInjective(a, b, "-" + PolicySuffix);
  }

  /** A size threshold as Elasticsearch reads it: decimal gigabytes, e.g. "300gb". */
  function RenderSize(size: int): (s: string) {
    Itoa(size) + "gb"
  }

  /** An age threshold as Elasticsearch reads it: decimal days, e.g. "30d". */
  function RenderDays(days: int): (s: string) {
    Itoa(days) + "d"
  }

  function ParseSize(s: string): (size: Option<int>) {
    match StripSuffix(s, "gb")
    case None => None
    case Some(digits) => ParseInt(digits)
  }

  function ParseDays(s: string): (days: Option<int>) {
    match StripSuffix(s, "d")
    case None => None
    case Some(digits) => ParseInt(digits)
  }

  lemma ParseRenderSize(size: int)
    ensures ParseSize(RenderSize(size)) == Some(size)
  {
    StripAppendedSuffix(Itoa(size), "gb");
    ParseItoa(size);
  }

  lemma ParseRenderDays(days: int)
    ensures ParseDays(RenderDays(days)) == Some(days)
  {
    StripAppendedSuffix(Itoa(days), "d");
    ParseItoa(days);
  }

  /** String comparison of rendered sizes is comparison of the sizes. */
  lemma RenderSizeInjective(a: int, b: int)
    ensures RenderSize(a) == RenderSize(b) <==> a == b
  {
    ParseRenderSize(a);
    ParseRenderSize(b);
  }

  /** String comparison of rendered ages is comparison of the ages. */
  lemma RenderDaysInjective(a: int, b: int)
    ensures RenderDays(a) == RenderDays(b) <==> a == b
  {
    ParseRenderDays(a);
    ParseRenderDays(b);
  }

  /** The three strings the update check compares against. */
  lemma RenderedConstants()
    ensures RenderSize(RolloverSize) == "300gb"
    ensures RenderDays(RolloverAge) == "30d"
    ensures RenderDays(DeleteAge) == "90d"
  {
    assert NatDigits(3) == "3";
    assert NatDigits(9) == "9";
    assert NatDigits(30) == NatDigits(3) + "0";
    assert NatDigits(90) == NatDigits(9) + "0";
    assert NatDigits(300) == NatDigits(30) + "0";
  }

  /** `hot.actions.rollover`: only the non-zero triggers. */
  function Rollover(rolloverSize: int, rolloverAge: int): (rollover: Object) {
    (if rolloverSize != 0 then map["max_size" := Str(RenderSize(rolloverSize))] else map[]) +
    (if rolloverAge != 0 then map["max_age" := Str(RenderDays(rolloverAge))] else map[])
  }

  lemma RolloverKeys(rolloverSize: int, rolloverAge: int)
    ensures Rollover(rolloverSize, rolloverAge).Keys ==
      (if rolloverSize != 0 then {"max_size"} else {}) + (if rolloverAge != 0 then {"max_age"} else {})
  {
  }

  function HotPhase(rolloverSize: int, rolloverAge: int): (hot: Value) {
    Obj(map["actions" := Obj(map["rollover" := Obj(Rollover(rolloverSize, rolloverAge))])])
  }

  /** `delete`: the minimum age and an empty `delete` action. */
  function DeletePhase(deleteAge: int): (delete: Value) {
    Obj(map["min_age" := Str(RenderDays(deleteAge)), "actions" := Obj(map["delete" := Obj(map[])])])
  }

  /** The phases object: the template's (empty) phases plus `hot` when a
      rollover trigger is non-zero and `delete` when the delete age is. */
  function AddPhases(phases: Object, rolloverSize: int, rolloverAge: int, deleteAge: int): (r: Object) {
    var withHot :=
      if rolloverAge != 0 || rolloverSize != 0 then phases["hot" := HotPhase(rolloverSize, rolloverAge)]
      else phases;
    if deleteAge != 0 then withHot["delete" := DeletePhase(deleteAge)] else withHot
  }

  /** The policy document for the given thresholds. The Go code writes the
      phases into the template through the map `GetMap` returns (maps alias);
      here the updated phases are written back explicitly. */
  function RenderPolicy(rolloverSize: int, rolloverAge: int, deleteAge: int): (doc: Object)
    ensures Lookup(Obj(doc), PhasesPath) == Some(Obj(AddPhases(map[], rolloverSize, rolloverAge, deleteAge)))
    ensures ObjectAt(Obj(doc), PhasesPath).Keys <= {"hot", "delete"}
    ensures Lookup(Obj(doc), ["policy", "phases", "hot"]).Some? <==> rolloverSize != 0 || rolloverAge != 0
    ensures Lookup(Obj(doc), ["policy", "phases", "delete"]).Some? <==> deleteAge != 0
    ensures doc.Keys == {"policy"} && ObjectAt(Obj(doc), ["policy"]).Keys == {"phases"}
  {
    var policy := GetMap(DefaultPolicy, "policy");
    var phases := GetMap(policy, "phases");
    DefaultPolicy["policy" := Obj(policy["phases" := Obj(AddPhases(phases, rolloverSize, rolloverAge, deleteAge))])]
  }

  const PhasesPath: seq<string> := ["policy", "phases"]
  const RolloverPath: seq<string> := ["policy", "phases", "hot", "actions", "rollover"]
  const DeletePath: seq<string> := ["policy", "phases", "delete"]

  /** Reading one field below the phases object of a rendered document. */
  lemma LookupBelowPhases(rolloverSize: int, rolloverAge: int, deleteAge: int, tail: seq<string>)
    ensures Lookup(Obj(RenderPolicy(rolloverSize, rolloverAge, deleteAge)), PhasesPath + tail) ==
      Lookup(Obj(AddPhases(map[], rolloverSize, rolloverAge, deleteAge)), tail)
  {
    LookupConcat(Obj(RenderPolicy(rolloverSize, rolloverAge, deleteAge)), PhasesPath, tail);
  }

  /** The rollover object of a rendered document holds exactly the non-zero triggers. */
  lemma RenderRollover(rolloverSize: int, rolloverAge: int, deleteAge: int)
    ensures Lookup(Obj(RenderPolicy(rolloverSize, rolloverAge, deleteAge)), RolloverPath) ==
      if rolloverSize != 0 || rolloverAge != 0 then Some(Obj(Rollover(rolloverSize, rolloverAge))) else None
    ensures rolloverSize != 0 || rolloverAge != 0 ==>
      ObjectAt(Obj(RenderPolicy(rolloverSize, rolloverAge, deleteAge)), RolloverPath).Keys ==
      (if rolloverSize != 0 then {"max_size"} else {}) + (if rolloverAge != 0 then {"max_age"} else {})
  {
    var phases := AddPhases(map[], rolloverSize, rolloverAge, deleteAge);
    assert RolloverPath == PhasesPath + ["hot", "actions", "rollover"];
    LookupBelowPhases(rolloverSize, rolloverAge, deleteAge, ["hot", "actions", "rollover"]);
    if rolloverSize != 0 || rolloverAge != 0 {
      assert phases["hot"] == HotPhase(rolloverSize, rolloverAge);
      RolloverKeys(rolloverSize, rolloverAge);
    } else {
      assert "hot" !in phases;
    }
  }

  /** The phases carry nothing beyond what the code writes: `hot` holds only
      `actions`, which holds only `rollover`; `delete` holds only `min_age`
      and `actions`, which holds only the `delete` action. */
  lemma RenderPhaseShapes(rolloverSize: int, rolloverAge: int, deleteAge: int)
    ensures rolloverSize != 0 || rolloverAge != 0 ==>
      && ObjectAt(Obj(RenderPolicy(rolloverSize, rolloverAge, deleteAge)), PhasesPath + ["hot"]).Keys == {"actions"}
      && ObjectAt(Obj(RenderPolicy(rolloverSize, rolloverAge, deleteAge)), PhasesPath + ["hot", "actions"]).Keys == {"rollover"}
    ensures deleteAge != 0 ==>
      && ObjectAt(Obj(RenderPolicy(rolloverSize, rolloverAge, deleteAge)), PhasesPath + ["delete"]).Keys == {"min_age", "actions"}
      && ObjectAt(Obj(RenderPolicy(rolloverSize, rolloverAge, deleteAge)), PhasesPath + ["delete", "actions"]).Keys == {"delete"}
  {
    LookupBelowPhases(rolloverSize, rolloverAge, deleteAge, ["hot"]);
    LookupBelowPhases(rolloverSize, rolloverAge, deleteAge, ["hot", "actions"]);
    LookupBelowPhases(rolloverSize, rolloverAge, deleteAge, ["delete"]);
    LookupBelowPhases(rolloverSize, rolloverAge, deleteAge, ["delete", "actions"]);
  }

  /** `max_size` is present exactly when the size trigger is non-zero, and
      holds its rendering; likewise `max_age` for the age trigger. */
  lemma RenderRolloverFields(rolloverSize: int, rolloverAge: int, deleteAge: int)
    ensures Lookup(Obj(RenderPolicy(rolloverSize, rolloverAge, deleteAge)), RolloverPath + ["max_size"]) ==
      if rolloverSize != 0 then Some(Str(RenderSize(rolloverSize))) else None
    ensures Lookup(Obj(RenderPolicy(rolloverSize, rolloverAge, deleteAge)), RolloverPath + ["max_age"]) ==
      if rolloverAge != 0 then Some(Str(RenderDays(rolloverAge))) else None
  {
    var doc := Obj(RenderPolicy(rolloverSize, rolloverAge, deleteAge));
    RenderRollover(rolloverSize, rolloverAge, deleteAge);
    LookupAppend(doc, RolloverPath, "max_size");
    LookupAppend(doc, RolloverPath, "max_age");
  }

  /** The `delete` phase, when present, carries the rendered minimum age and
      an empty `delete` action. */
  lemma RenderDeleteFields(rolloverSize: int, rolloverAge: int, deleteAge: int)
    ensures Lookup(Obj(RenderPolicy(rolloverSize, rolloverAge, deleteAge)), DeletePath + ["min_age"]) ==
      if deleteAge != 0 then Some(Str(RenderDays(deleteAge))) else None
    ensures deleteAge != 0 ==>
      Lookup(Obj(RenderPolicy(rolloverSize, rolloverAge, deleteAge)), DeletePath + ["actions", "delete"]) ==
      Some(Obj(map[]))
  {
    var phases := AddPhases(map[], rolloverSize, rolloverAge, deleteAge);
    assert DeletePath + ["min_age"] == PhasesPath + ["delete", "min_age"];
    assert DeletePath + ["actions", "delete"] == PhasesPath + ["delete", "actions", "delete"];
    LookupBelowPhases(rolloverSize, rolloverAge, deleteAge, ["delete", "min_age"]);
    LookupBelowPhases(rolloverSize, rolloverAge, deleteAge, ["delete", "actions", "delete"]);
    if deleteAge != 0 {
      assert phases["delete"] == DeletePhase(deleteAge);
    } else {
      assert "delete" !in phases;
    }
  }

  /** With every threshold zero the result is the bare template. */
  lemma RenderAllZeroIsTemplate()
    ensures RenderPolicy(0, 0, 0) == DefaultPolicy
  {
    assert GetMap(GetMap(DefaultPolicy, "policy"), "phases") == map[];
    assert GetMap(DefaultPolicy, "policy")["phases" := Obj(map[])] == DefaultPolicy["policy"].fields;
  }
}
