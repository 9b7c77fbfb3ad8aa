/** Experiment specifications: `validate_spec` over an arbitrary JSON value, and what its results
    look like when they are validated again. */
module Spec {
  import opened Wrappers
  import Keys

  /** Object keys: those that `validate_spec` or the manifest read or write, and all others. */
  datatype Name =
    | Goal | Concept | Actors | Stages | DurationSeconds | MaxTurns | PollSeconds | MaxTurnWaitSeconds
    | MaxHandoffChars | MaxToolSteps | ResidencyMode | ReleaseModelsOnEnd | InitialHandoff | Instructions
    | StopOnTurnFailure | Schema | ClaimBoundary
    | ConceptId | LanguageProfile | TargetProfile | Hypothesis | Task | Falsifiers | ProtectedProperties
    | GoverningContracts | FrozenInputs | HiddenInputs
    | ActorName | Worker | Model | Role
    | ExperimentId | FamilyRecordId | FrozenAt | ResourceBudget | RerunOf | AuthorityBoundary | ManifestIdentity
    | Other(text: string)

  datatype Json =
    | Null
    | Bool(b: bool)
    | Int(i: int)
    | Real(r: real)
    | Str(s: string)
    | List(items: seq<Json>)
    | Obj(fields: map<Name, Json>)

  /** What the Python runtime computes: `str`, the parsing `int` and `float` of a text, the length of
      a JSON encoding, and the default concept id of a goal and language profile. */
  datatype Runtime = Runtime(
    show: Json -> string, parseInt: string -> Option<int>, parseReal: string -> Option<real>,
    size: Json -> nat, conceptId: (string, Json) -> string)

  function Get(fields: map<Name, Json>, name: Name): Json {
    if name in fields then fields[name] else Null
  }

  /** `get` with a default, which a null value does not trigger. */
  function GetOr(fields: map<Name, Json>, name: Name, default: Json): Json {
    if name in fields then fields[name] else default
  }

  predicate Truthy(v: Json) {
    match v
    case Null => false
    case Bool(b) => b
    case Int(i) => i != 0
    case Real(r) => r != 0.0
    case Str(s) => s != ""
    case List(items) => items != []
    case Obj(fields) => fields != map[]
  }

  function Or(v: Json, default: Json): Json {
    if Truthy(v) then v else default
  }

  // ----- texts ---------------------------------------------------------------------

  /** The whitespace that `str.strip` removes. */
  predicate IsSpace(c: char) {
    || '\U{9}' <= c <= '\U{d}' || '\U{1c}' <= c <= ' ' || c == '\U{85}' || c == '\U{a0}'
    || c == '\U{1680}' || '\U{2000}' <= c <= '\U{200a}' || c == '\U{2028}' || c == '\U{2029}'
    || c == '\U{202f}' || c == '\U{205f}' || c == '\U{3000}'
  }

  function StripRight(s: string): string {
    if s != "" && IsSpace(s[|s| - 1]) then StripRight(s[..|s| - 1]) else s
  }

  function Strip(s: string): string {
    if s != "" && IsSpace(s[0]) then Strip(s[1..]) else StripRight(s)
  }

  predicate Trimmed(s: string) {
    s != "" ==> !IsSpace(s[0]) && !IsSpace(s[|s| - 1])
  }

  lemma {:induction false} StripRightTrims(s: string)
    ensures var t := StripRight(s);
            t <= s && (t != "" ==> !IsSpace(t[|t| - 1])) && (s != "" && !IsSpace(s[0]) ==> t != "")
  {
    if s != "" && IsSpace(s[|s| - 1]) {
      StripRightTrims(s[..|s| - 1]);
    }
  }

  lemma {:induction false} StripTrims(s: string)
    ensures Trimmed(Strip(s)) && (Trimmed(s) ==> Strip(s) == s)
  {
    if s != "" && IsSpace(s[0]) {
      StripTrims(s[1..]);
    } else {
      StripRightTrims(s);
    }
  }

  predicate AllSpace(s: string) {
    forall c <- s :: IsSpace(c)
  }

  lemma {:induction false} StripRightCuts(s: string) returns (b: string)
    ensures s == StripRight(s) + b && AllSpace(b)
  {
    if s != "" && IsSpace(s[|s| - 1]) {
      b := StripRightCuts(s[..|s| - 1]);
      assert s == s[..|s| - 1] + [s[|s| - 1]];
      b := b + [s[|s| - 1]];
    } else {
      b := "";
    }
  }

  /** Nothing but whitespace is cut off, at the two ends. */
  lemma {:induction false} StripCuts(s: string) returns (a: string, b: string)
    ensures s == a + Strip(s) + b && AllSpace(a) && AllSpace(b)
  {
    if s != "" && IsSpace(s[0]) {
      a, b := StripCuts(s[1..]);
      assert s == [s[0]] + s[1..] && [s[0]] + (a + Strip(s) + b) == ([s[0]] + a) + Strip(s) + b;
      a := [s[0]] + a;
    } else {
      a := "";
      b := StripRightCuts(s);
    }
  }

  lemma {:induction false} StripRightDrops(t: string, b: string)
    requires AllSpace(b) && (t != "" ==> !IsSpace(t[|t| - 1]))
    ensures StripRight(t + b) == t
  {
    if b == "" {
      assert t + b == t;
    } else {
      assert (t + b)[..|t + b| - 1] == t + b[..|b| - 1] && (t + b)[|t + b| - 1] == b[|b| - 1];
      StripRightDrops(t, b[..|b| - 1]);
    }
  }

  /** A text between whitespace is what is left of it, so the result is determined by `StripCuts` and
      `StripTrims`. */
  lemma {:induction false} StripDrops(a: string, t: string, b: string)
    requires AllSpace(a) && AllSpace(b) && Trimmed(t)
    ensures Strip(a + t + b) == t
  {
    if a != "" {
      assert (a + t + b)[0] == a[0] && (a + t + b)[1..] == a[1..] + t + b;
      StripDrops(a[1..], t, b);
    } else if t != "" {
      assert a + t + b == t + b && (t + b)[0] == t[0];
      StripRightDrops(t, b);
    } else {
      assert a + t + b == b;
      StripsAway(b);
    }
  }

  lemma {:induction false} StripsAway(s: string)
    requires AllSpace(s)
    ensures Strip(s) == ""
  {
    if s != "" {
      StripsAway(s[1..]);
    }
  }

  function BoundedText(v: Json, maximum: nat): Option<string> {
    if !v.Str? then None
    else
      var text := Strip(v.s);
      if text == "" || |text| > maximum || '\0' in text then None else Some(text)
  }

  predicate GoodText(s: string, maximum: nat) {
    s != "" && |s| <= maximum && '\0' !in s && Trimmed(s)
  }

  lemma BoundedTextFixes(v: Json, maximum: nat)
    ensures BoundedText(v, maximum).Some? ==> GoodText(BoundedText(v, maximum).value, maximum)
  {
    if v.Str? {
      StripTrims(v.s);
    }
  }

  function Between(a: string, t: string, b: string): string {
    a + t + b
  }

  ghost predicate Surrounds(s: string, t: string) {
    Trimmed(t) && exists a, b :: s == Between(a, t, b) && AllSpace(a) && AllSpace(b)
  }

  /** The text that is accepted: what is between the whitespace around it, if that has 1 to `maximum`
      characters and no NUL; everything else is refused. */
  lemma BoundedTextMeans(v: Json, maximum: nat, text: string)
    ensures BoundedText(v, maximum) == Some(text) <==>
              && v.Str? && Surrounds(v.s, text)
              && 1 <= |text| <= maximum && forall i :: 0 <= i < |text| ==> text[i] != '\0'
  {
    if v.Str? {
      StripTrims(v.s);
      var a, b := StripCuts(v.s);
      assert Between(a, Strip(v.s), b) == v.s;
      if Surrounds(v.s, text) {
        var a', b' :| v.s == Between(a', text, b') && AllSpace(a') && AllSpace(b') && Trimmed(text);
        StripDrops(a', text, b');
      }
    }
  }

  lemma GoodTextIsFixed(s: string, maximum: nat)
    ensures BoundedText(Str(s), maximum) == Some(s) <==> GoodText(s, maximum)
  {
    StripTrims(s);
  }

  function Texts(items: seq<Json>, maximum: nat): Option<seq<string>> {
    if items == [] then Some([])
    else
      var rest := Texts(items[..|items| - 1], maximum);
      var last := BoundedText(items[|items| - 1], maximum);
      if rest.Some? && last.Some? then Some(rest.value + [last.value]) else None
  }

  function TextList(v: Json): Option<seq<string>> {
    if v.Null? then Some([])
    else if !v.List? || |v.items| > 128 then None
    else Texts(v.items, 4096)
  }

  function Strings(texts: seq<string>): seq<Json> {
    seq(|texts|, i requires 0 <= i < |texts| => Str(texts[i]))
  }

  predicate GoodTexts(texts: seq<string>, maximum: nat) {
    forall text <- texts :: GoodText(text, maximum)
  }

  lemma {:induction false} TextsFix(items: seq<Json>, maximum: nat)
    ensures var r := Texts(items, maximum);
            r.Some? ==> |r.value| == |items| && GoodTexts(r.value, maximum)
  {
    if items != [] {
      TextsFix(items[..|items| - 1], maximum);
      BoundedTextFixes(items[|items| - 1], maximum);
    }
  }

  lemma {:induction false} GoodTextsAreFixed(texts: seq<string>, maximum: nat)
    ensures Texts(Strings(texts), maximum) == Some(texts) <==> GoodTexts(texts, maximum)
  {
    if texts != [] {
      var before, last := texts[..|texts| - 1], texts[|texts| - 1];
      assert texts == before + [last];
      assert Strings(texts)[..|texts| - 1] == Strings(before);
      GoodTextsAreFixed(before, maximum);
      GoodTextIsFixed(last, maximum);
      TextsFix(Strings(texts), maximum);
    }
  }

  // ----- actors ----------------------------------------------------------------------

  datatype Actor = Actor(name: string, worker: string, model: string, role: Option<string>)

  predicate GoodActor(a: Actor) {
    && GoodText(a.name, 128) && GoodText(a.worker, 256) && GoodText(a.model, 256)
    && (a.role.Some? ==> GoodText(a.role.value, 64))
  }

  function ActorOf(item: Json, index: nat): Option<Actor> {
    if !item.Obj? then None
    else
      var name := BoundedText(Or(Get(item.fields, ActorName), Str("actor-" + Keys.Decimal(index + 1))), 128);
      var worker := BoundedText(Get(item.fields, Worker), 256);
      var model := BoundedText(Get(item.fields, Model), 256);
      var role := Get(item.fields, Role);
      if name.None? || worker.None? || model.None? || (Truthy(role) && BoundedText(role, 64).None?) then None
      else Some(Actor(name.value, worker.value, model.value, if Truthy(role) then BoundedText(role, 64) else None))
  }

  function ActorJson(a: Actor): Json {
    var fields := map[ActorName := Str(a.name), Worker := Str(a.worker), Model := Str(a.model)];
    Obj(if a.role.Some? then fields[Role := Str(a.role.value)] else fields)
  }

  lemma ActorFixes(item: Json, index: nat)
    ensures ActorOf(item, index).Some? ==> GoodActor(ActorOf(item, index).value)
  {
    if item.Obj? {
      BoundedTextFixes(Or(Get(item.fields, ActorName), Str("actor-" + Keys.Decimal(index + 1))), 128);
      BoundedTextFixes(Get(item.fields, Worker), 256);
      BoundedTextFixes(Get(item.fields, Model), 256);
      BoundedTextFixes(Get(item.fields, Role), 64);
    }
  }

  lemma GoodActorIsFixed(a: Actor, index: nat)
    requires GoodActor(a)
    ensures ActorOf(ActorJson(a), index) == Some(a)
  {
    GoodTextIsFixed(a.name, 128);
    GoodTextIsFixed(a.worker, 256);
    GoodTextIsFixed(a.model, 256);
    if a.role.Some? {
      GoodTextIsFixed(a.role.value, 64);
    }
  }

  predicate Named(actors: seq<Actor>, name: string) {
    exists a <- actors :: a.name == name
  }

  function ActorsOf(items: seq<Json>): Option<seq<Actor>> {
    if items == [] then Some([])
    else
      var rest := ActorsOf(items[..|items| - 1]);
      var last := ActorOf(items[|items| - 1], |items| - 1);
      if rest.None? || last.None? || Named(rest.value, last.value.name) then None
      else Some(rest.value + [last.value])
  }

  /** The actor loop of `validate_spec`, with its set of names seen. */
  method ValidateActors(items: seq<Json>) returns (r: Option<seq<Actor>>)
    ensures r == ActorsOf(items)
  {
    var actors: seq<Actor> := [];
    var names: set<string> := {};
    for index := 0 to |items|
      invariant ActorsOf(items[..index]) == Some(actors)
      invariant forall name :: name in names <==> Named(actors, name)
    {
      assert items[..index + 1][..index] == items[..index];
      var actor := ActorOf(items[index], index);
      if actor.None? || actor.value.name in names {
        NoPrefix(items, index + 1);
        return None;
      }
      names := names + {actor.value.name};
      actors := actors + [actor.value];
    }
    assert items[..|items|] == items;
    r := Some(actors);
  }

  lemma {:induction false} NoPrefix(items: seq<Json>, k: nat)
    requires k <= |items| && ActorsOf(items[..k]) == None
    ensures ActorsOf(items) == None
  {
    if k == |items| {
      assert items[..k] == items;
    } else {
      assert items[..|items| - 1][..k] == items[..k];
      NoPrefix(items[..|items| - 1], k);
    }
  }

  predicate GoodActors(actors: seq<Actor>) {
    && (forall a <- actors :: GoodActor(a))
    && (forall i, j :: 0 <= i < j < |actors| ==> actors[i].name != actors[j].name)
  }

  function ActorJsons(actors: seq<Actor>): seq<Json> {
    seq(|actors|, i requires 0 <= i < |actors| => ActorJson(actors[i]))
  }

  lemma {:induction false} ActorsFix(items: seq<Json>)
    ensures var r := ActorsOf(items); r.Some? ==> |r.value| == |items| && GoodActors(r.value)
  {
    if items != [] {
      ActorsFix(items[..|items| - 1]);
      ActorFixes(items[|items| - 1], |items| - 1);
    }
  }

  lemma {:induction false} GoodActorsAreFixed(actors: seq<Actor>)
    ensures ActorsOf(ActorJsons(actors)) == Some(actors) <==> GoodActors(actors)
  {
    if actors != [] {
      var before, last := actors[..|actors| - 1], actors[|actors| - 1];
      assert actors == before + [last];
      assert ActorJsons(actors)[..|actors| - 1] == ActorJsons(before);
      GoodActorsAreFixed(before);
      ActorsFix(ActorJsons(actors));
      if GoodActors(actors) {
        GoodActorIsFixed(last, |actors| - 1);
        assert GoodActors(before);
      }
    }
  }

  // ----- numbers ---------------------------------------------------------------------

  datatype Bounds = Bounds(
    duration: int, maxTurns: int, poll: real, maxTurnWait: int, maxHandoff: int, maxTools: int)

  /** Python's `int`, which truncates towards zero. */
  function ToInt(rt: Runtime, v: Json): Option<int> {
    match v
    case Int(i) => Some(i)
    case Bool(b) => Some(if b then 1 else 0)
    case Real(r) => Some(if r >= 0.0 then r.Floor else -(-r).Floor)
    case Str(s) => rt.parseInt(s)
    case _ => None
  }

  function ToReal(rt: Runtime, v: Json): Option<real> {
    match v
    case Int(i) => Some(i as real)
    case Bool(b) => Some(if b then 1.0 else 0.0)
    case Real(r) => Some(r)
    case Str(s) => rt.parseReal(s)
    case _ => None
  }

  predicate InBounds(b: Bounds) {
    && 30 <= b.duration <= 604800 && 1 <= b.maxTurns <= 10000 && 0.25 <= b.poll <= 30.0
    && 30 <= b.maxTurnWait <= 3600 && 256 <= b.maxHandoff <= 100000 && 0 <= b.maxTools <= 32
  }

  function BoundsOf(rt: Runtime, fields: map<Name, Json>): Option<Bounds> {
    var duration := ToInt(rt, GetOr(fields, DurationSeconds, Int(3600)));
    var maxTurns := ToInt(rt, GetOr(fields, MaxTurns, Int(48)));
    var poll := ToReal(rt, GetOr(fields, PollSeconds, Real(1.0)));
    var maxTurnWait := ToInt(rt, GetOr(fields, MaxTurnWaitSeconds, Int(900)));
    var maxHandoff := ToInt(rt, GetOr(fields, MaxHandoffChars, Int(12000)));
    var maxTools := ToInt(rt, GetOr(fields, MaxToolSteps, Int(8)));
    if duration.None? || maxTurns.None? || poll.None? || maxTurnWait.None? || maxHandoff.None? || maxTools.None?
    then None
    else
      var b := Bounds(duration.value, maxTurns.value, poll.value, maxTurnWait.value, maxHandoff.value, maxTools.value);
      if InBounds(b) then Some(b) else None
  }

  // ----- the concept --------------------------------------------------------------------

  datatype ConceptSpec = ConceptSpec(
    id: string, language: string, target: map<Name, Json>, hypothesis: string, task: string,
    falsifiers: seq<string>, protectedProperties: seq<string>, contracts: seq<string>,
    frozen: seq<Json>, hidden: seq<Json>)

  predicate GoodList(texts: seq<string>) {
    |texts| <= 128 && GoodTexts(texts, 4096)
  }

  predicate GoodConcept(rt: Runtime, c: ConceptSpec) {
    && GoodText(c.id, 512) && GoodText(c.language, 1024)
    && c.target != map[] && rt.size(Obj(c.target)) <= 64000
    && GoodText(c.hypothesis, 20000) && GoodText(c.task, 20000)
    && GoodList(c.falsifiers) && GoodList(c.protectedProperties) && GoodList(c.contracts)
    && rt.size(List(c.frozen)) <= 256000 && rt.size(List(c.hidden)) <= 256000
  }

  const UNSPECIFIED := map[Other("kind") := Str("unspecified")]

  /** The raw values of a concept object, defaults filled in. */
  datatype ConceptParts = ConceptParts(
    id: Json, language: Json, target: Json, hypothesis: Json, task: Json,
    falsifiers: Json, protectedProperties: Json, contracts: Json, frozen: Json, hidden: Json)

  function ConceptPartsOf(rt: Runtime, goal: string, f: map<Name, Json>): ConceptParts {
    ConceptParts(
      Or(Get(f, ConceptId), Str(rt.conceptId(goal, Get(f, LanguageProfile)))),
      Or(Get(f, LanguageProfile), Str("unspecified")),
      Or(Get(f, TargetProfile), Obj(UNSPECIFIED)),
      Or(Get(f, Hypothesis), Str(goal)), Or(Get(f, Task), Str(goal)),
      Get(f, Falsifiers), Get(f, ProtectedProperties), Get(f, GoverningContracts),
      Or(Get(f, FrozenInputs), List([])), Or(Get(f, HiddenInputs), List([])))
  }

  function BuildConcept(rt: Runtime, p: ConceptParts): Option<ConceptSpec> {
    var id := BoundedText(p.id, 512);
    var language := BoundedText(p.language, 1024);
    var hypothesis := BoundedText(p.hypothesis, 20000);
    var task := BoundedText(p.task, 20000);
    var falsifiers := TextList(p.falsifiers);
    var properties := TextList(p.protectedProperties);
    var contracts := TextList(p.contracts);
    if !p.target.Obj? || !p.frozen.List? || !p.hidden.List? || id.None? || language.None? || hypothesis.None?
       || task.None? || falsifiers.None? || properties.None? || contracts.None?
       || rt.size(p.target) > 64000 || rt.size(p.frozen) > 256000 || rt.size(p.hidden) > 256000
    then None
    else Some(ConceptSpec(id.value, language.value, p.target.fields, hypothesis.value, task.value,
                          falsifiers.value, properties.value, contracts.value, p.frozen.items, p.hidden.items))
  }

  function ConceptOf(rt: Runtime, goal: string, v: Json): Option<ConceptSpec> {
    var raw := Or(v, Obj(map[]));
    if raw.Obj? then BuildConcept(rt, ConceptPartsOf(rt, goal, raw.fields)) else None
  }

  function ConceptJson(c: ConceptSpec): Json {
    Obj(map[ConceptId := Str(c.id), LanguageProfile := Str(c.language), TargetProfile := Obj(c.target),
            Hypothesis := Str(c.hypothesis), Task := Str(c.task), Falsifiers := List(Strings(c.falsifiers)),
            ProtectedProperties := List(Strings(c.protectedProperties)),
            GoverningContracts := List(Strings(c.contracts)),
            FrozenInputs := List(c.frozen), HiddenInputs := List(c.hidden)])
  }

  lemma TextListFixes(v: Json)
    ensures TextList(v).Some? ==> GoodList(TextList(v).value)
  {
    if v.List? {
      TextsFix(v.items, 4096);
    }
  }

  lemma GoodListIsFixed(texts: seq<string>)
    ensures TextList(List(Strings(texts))) == Some(texts) <==> GoodList(texts)
  {
    GoodTextsAreFixed(texts, 4096);
  }

  lemma BuildConceptFixes(rt: Runtime, p: ConceptParts)
    requires p.target.Obj? ==> p.target.fields != map[]
    ensures var r := BuildConcept(rt, p); r.Some? ==> GoodConcept(rt, r.value)
  {
    BoundedTextFixes(p.id, 512);
    BoundedTextFixes(p.language, 1024);
    BoundedTextFixes(p.hypothesis, 20000);
    BoundedTextFixes(p.task, 20000);
    TextListFixes(p.falsifiers);
    TextListFixes(p.protectedProperties);
    TextListFixes(p.contracts);
  }

  lemma ConceptFixes(rt: Runtime, goal: string, v: Json)
    ensures var r := ConceptOf(rt, goal, v); r.Some? ==> GoodConcept(rt, r.value)
  {
    var raw := Or(v, Obj(map[]));
    if raw.Obj? {
      assert Other("kind") in UNSPECIFIED;
      BuildConceptFixes(rt, ConceptPartsOf(rt, goal, raw.fields));
    }
  }

  function ConceptJsonParts(c: ConceptSpec): ConceptParts {
    ConceptParts(Str(c.id), Str(c.language), Obj(c.target), Str(c.hypothesis), Str(c.task),
                 List(Strings(c.falsifiers)), List(Strings(c.protectedProperties)), List(Strings(c.contracts)),
                 List(c.frozen), List(c.hidden))
  }

  lemma ConceptIsReadBack(rt: Runtime, goal: string, c: ConceptSpec)
    requires c.id != "" && c.language != "" && c.target != map[] && c.hypothesis != "" && c.task != ""
    ensures ConceptPartsOf(rt, goal, ConceptJson(c).fields) == ConceptJsonParts(c)
    ensures Truthy(ConceptJson(c))
  {
    assert ConceptId in ConceptJson(c).fields;
  }

  lemma GoodConceptIsFixed(rt: Runtime, goal: string, c: ConceptSpec)
    requires GoodConcept(rt, c)
    ensures ConceptOf(rt, goal, ConceptJson(c)) == Some(c)
  {
    ConceptIsReadBack(rt, goal, c);
    GoodTextIsFixed(c.id, 512);
    GoodTextIsFixed(c.language, 1024);
    GoodTextIsFixed(c.hypothesis, 20000);
    GoodTextIsFixed(c.task, 20000);
    GoodListIsFixed(c.falsifiers);
    GoodListIsFixed(c.protectedProperties);
    GoodListIsFixed(c.contracts);
  }

  // ----- specifications -------------------------------------------------------------------

  datatype Spec = Spec(
    goal: string, concept: ConceptSpec, actors: seq<Actor>, stages: seq<string>, bounds: Bounds,
    residency: string, releaseOnEnd: bool, handoff: string, instructions: string, stopOnFailure: bool)

  function StageTexts(v: Json): Option<seq<string>> {
    if !v.List? || !(1 <= |v.items| <= 64) then None else Texts(v.items, 12000)
  }

  function ActorList(v: Json): Option<seq<Actor>> {
    if !v.List? || !(1 <= |v.items| <= 32) then None else ActorsOf(v.items)
  }

  /** `str` of a value. */
  function Show(rt: Runtime, v: Json): string {
    if v.Str? then v.s else rt.show(v)
  }

  const NO_HANDOFF := "No prior handoff is available."

  predicate KnownResidency(residency: string) {
    residency == "pinned" || residency == "request"
  }

  /** The raw values of a specification object, defaults filled in. */
  datatype Parts = Parts(
    goal: Json, concept: Json, actors: Json, stages: Json, handoff: Json, instructions: Json, residency: Json,
    releaseOnEnd: Json, stopOnFailure: Json)

  function PartsOf(f: map<Name, Json>): Parts {
    Parts(Get(f, Goal), Get(f, Concept), Get(f, Actors), Get(f, Stages),
          Or(Get(f, InitialHandoff), Str(NO_HANDOFF)), Or(Get(f, Instructions), Str("")),
          Or(Get(f, ResidencyMode), Str("pinned")),
          GetOr(f, ReleaseModelsOnEnd, Bool(true)), GetOr(f, StopOnTurnFailure, Bool(true)))
  }

  function Build(rt: Runtime, p: Parts, bounds: Option<Bounds>): Option<Spec> {
    var actors := ActorList(p.actors);
    var stages := StageTexts(p.stages);
    var handoff := Show(rt, p.handoff);
    var instructions := Strip(Show(rt, p.instructions));
    var residency := Show(rt, p.residency);
    var goal := BoundedText(p.goal, 20000);
    if actors.None? || stages.None? || bounds.None? || !KnownResidency(residency)
       || |handoff| > bounds.value.maxHandoff || |instructions| > 20000 || '\0' in instructions || goal.None?
    then None
    else
      var concept := ConceptOf(rt, goal.value, p.concept);
      if concept.None? then None
      else Some(Spec(goal.value, concept.value, actors.value, stages.value, bounds.value, residency,
                     Truthy(p.releaseOnEnd), handoff, instructions, Truthy(p.stopOnFailure)))
  }

  /** `validate_spec`; None stands for the INVALID_INPUT error. */
  function Validate(rt: Runtime, v: Json): Option<Spec> {
    if v.Obj? then Build(rt, PartsOf(v.fields), BoundsOf(rt, v.fields)) else None
  }

  const SCHEMA_TEXT := "mncs-control.experiment.v0.1"

  /** The object that `validate_spec` returns; `claim` is its constant claim boundary. */
  function SpecJson(s: Spec, claim: string): Json {
    Obj(map[Schema := Str(SCHEMA_TEXT), Goal := Str(s.goal), Concept := ConceptJson(s.concept),
            Actors := List(ActorJsons(s.actors)), Stages := List(Strings(s.stages)),
            DurationSeconds := Int(s.bounds.duration), MaxTurns := Int(s.bounds.maxTurns),
            PollSeconds := Real(s.bounds.poll), MaxTurnWaitSeconds := Int(s.bounds.maxTurnWait),
            MaxHandoffChars := Int(s.bounds.maxHandoff), MaxToolSteps := Int(s.bounds.maxTools),
            ResidencyMode := Str(s.residency), ReleaseModelsOnEnd := Bool(s.releaseOnEnd),
            InitialHandoff := Str(s.handoff), Instructions := Str(s.instructions),
            StopOnTurnFailure := Bool(s.stopOnFailure), ClaimBoundary := Str(claim)])
  }

  predicate Good(rt: Runtime, s: Spec) {
    && GoodText(s.goal, 20000) && GoodConcept(rt, s.concept)
    && 1 <= |s.actors| <= 32 && GoodActors(s.actors)
    && 1 <= |s.stages| <= 64 && GoodTexts(s.stages, 12000)
    && InBounds(s.bounds) && KnownResidency(s.residency)
    && s.handoff != "" && |s.handoff| <= s.bounds.maxHandoff
    && Trimmed(s.instructions) && |s.instructions| <= 20000 && '\0' !in s.instructions
  }

  /** `str` of a value that Python takes for true is not empty. */
  ghost predicate ShowsSomething(rt: Runtime) {
    forall v :: Truthy(v) && !v.Str? ==> rt.show(v) != ""
  }

  lemma BuiltIsGood(rt: Runtime, p: Parts, bounds: Option<Bounds>)
    requires bounds.Some? ==> InBounds(bounds.value)
    requires Show(rt, p.handoff) != ""
    ensures var r := Build(rt, p, bounds); r.Some? ==> Good(rt, r.value)
  {
    var r := Build(rt, p, bounds);
    if r.Some? {
      ActorsFix(p.actors.items);
      TextsFix(p.stages.items, 12000);
      BoundedTextFixes(p.goal, 20000);
      ConceptFixes(rt, r.value.goal, p.concept);
      StripTrims(Show(rt, p.instructions));
    }
  }

  /** Every accepted specification satisfies all the bounds, whatever it was read from. */
  lemma AcceptedIsGood(rt: Runtime, v: Json)
    requires ShowsSomething(rt)
    ensures var r := Validate(rt, v); r.Some? ==> Good(rt, r.value)
  {
    if v.Obj? {
      BuiltIsGood(rt, PartsOf(v.fields), BoundsOf(rt, v.fields));
    }
  }

  lemma ListsAreFixed(s: Spec)
    ensures ActorList(List(ActorJsons(s.actors))) == Some(s.actors) <==> 1 <= |s.actors| <= 32 && GoodActors(s.actors)
    ensures StageTexts(List(Strings(s.stages))) == Some(s.stages)
            <==> 1 <= |s.stages| <= 64 && GoodTexts(s.stages, 12000)
  {
    GoodActorsAreFixed(s.actors);
    GoodTextsAreFixed(s.stages, 12000);
  }

  function JsonParts(s: Spec): Parts {
    Parts(Str(s.goal), ConceptJson(s.concept), List(ActorJsons(s.actors)), List(Strings(s.stages)),
          Str(s.handoff), Str(s.instructions), Str(s.residency), Bool(s.releaseOnEnd), Bool(s.stopOnFailure))
  }

  lemma SpecIsReadBack(s: Spec, claim: string)
    requires s.handoff != "" && s.residency != ""
    ensures PartsOf(SpecJson(s, claim).fields) == JsonParts(s)
  {
    var f := SpecJson(s, claim).fields;
    assert Get(f, InitialHandoff) == Str(s.handoff);
    assert Get(f, Instructions) == Str(s.instructions);
    assert Get(f, ResidencyMode) == Str(s.residency);
  }

  lemma BoundsAreReadBack(rt: Runtime, s: Spec, claim: string)
    requires InBounds(s.bounds)
    ensures BoundsOf(rt, SpecJson(s, claim).fields) == Some(s.bounds)
  {
  }

  lemma GoodIsBuilt(rt: Runtime, s: Spec)
    requires Good(rt, s)
    ensures Build(rt, JsonParts(s), Some(s.bounds)) == Some(s)
  {
    var p := JsonParts(s);
    assert ActorList(p.actors) == Some(s.actors) && StageTexts(p.stages) == Some(s.stages) by {
      ListsAreFixed(s);
    }
    assert BoundedText(p.goal, 20000) == Some(s.goal) by {
      GoodTextIsFixed(s.goal, 20000);
    }
    assert ConceptOf(rt, s.goal, p.concept) == Some(s.concept) by {
      GoodConceptIsFixed(rt, s.goal, s.concept);
    }
    assert Strip(s.instructions) == s.instructions by {
      StripTrims(s.instructions);
    }
    BuildsSpec(rt, s, p);
  }

  lemma BuildsSpec(rt: Runtime, s: Spec, p: Parts)
    requires ActorList(p.actors) == Some(s.actors) && StageTexts(p.stages) == Some(s.stages)
    requires BoundedText(p.goal, 20000) == Some(s.goal) && ConceptOf(rt, s.goal, p.concept) == Some(s.concept)
    requires p.handoff == Str(s.handoff) && |s.handoff| <= s.bounds.maxHandoff
    requires p.instructions == Str(s.instructions) && Strip(s.instructions) == s.instructions
    requires |s.instructions| <= 20000 && '\0' !in s.instructions
    requires p.residency == Str(s.residency) && KnownResidency(s.residency)
    requires p.releaseOnEnd == Bool(s.releaseOnEnd) && p.stopOnFailure == Bool(s.stopOnFailure)
    ensures Build(rt, p, Some(s.bounds)) == Some(s)
  {
  }

  /** A specification within the bounds is read back unchanged from its JSON form. */
  lemma GoodIsFixed(rt: Runtime, s: Spec, claim: string)
    requires Good(rt, s)
    ensures Validate(rt, SpecJson(s, claim)) == Some(s)
  {
    SpecIsReadBack(s, claim);
    BoundsAreReadBack(rt, s, claim);
    GoodIsBuilt(rt, s);
  }

  /** The fixed points of validation are exactly the specifications within the bounds. */
  lemma FixedIffGood(rt: Runtime, s: Spec, claim: string)
    requires ShowsSomething(rt)
    ensures Validate(rt, SpecJson(s, claim)) == Some(s) <==> Good(rt, s)
  {
    AcceptedIsGood(rt, SpecJson(s, claim));
    if Good(rt, s) {
      GoodIsFixed(rt, s, claim);
    }
  }

  /** `validate_spec` accepts its own output and returns it unchanged. */
  lemma ValidateIsIdempotent(rt: Runtime, v: Json, claim: string)
    requires ShowsSomething(rt)
    ensures var r := Validate(rt, v); r.Some? ==> Validate(rt, SpecJson(r.value, claim)) == r
  {
    var r := Validate(rt, v);
    if r.Some? {
      AcceptedIsGood(rt, v);
      GoodIsFixed(rt, r.value, claim);
    }
  }
}
