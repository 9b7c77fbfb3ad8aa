/** Which specification a JSON value is read as, said as a relation: every accepted value is so related to
    what it is read as, and every value that is so related to a specification is accepted as it. */
module SpecMeaning {
  import opened Wrappers
  import opened Spec
  import Keys

  // ----- values --------------------------------------------------------------------------

  /** The values that Python takes for false. */
  predicate Falsy(v: Json) {
    v == Null || v == Bool(false) || v == Int(0) || v == Real(0.0) || v == Str("") || v == List([]) || v == Obj(map[])
  }

  lemma FalsyExactly(v: Json)
    ensures Falsy(v) <==> !Truthy(v)
  {
  }

  /** The code points that `str.isspace` accepts. */
  lemma SpacesExactly(c: char)
    ensures IsSpace(c) <==>
              || 9 <= c as int <= 13 || 28 <= c as int <= 32 || c as int == 133 || c as int == 160
              || c as int == 5760 || 8192 <= c as int <= 8202 || c as int == 8232 || c as int == 8233
              || c as int == 8239 || c as int == 8287 || c as int == 12288
  {
  }

  /** The value under a key, null where there is none. */
  function Field(f: map<Name, Json>, name: Name): Json {
    if name in f then f[name] else Null
  }

  /** The value, or the default where Python takes it for false. */
  function Given(v: Json, default: Json): Json {
    if Falsy(v) then default else v
  }

  /** The text, stripped, is `text`, and neither empty nor too long nor broken. */
  ghost predicate Says(v: Json, maximum: nat, text: string) {
    && v.Str? && Surrounds(v.s, text)
    && 1 <= |text| <= maximum && forall i :: 0 <= i < |text| ==> text[i] != '\0'
  }

  ghost predicate SayAll(items: seq<Json>, maximum: nat, texts: seq<string>) {
    |texts| == |items| && forall i :: 0 <= i < |items| ==> Says(items[i], maximum, texts[i])
  }

  /** An optional list of at most 128 texts. */
  ghost predicate Lists(v: Json, texts: seq<string>) {
    (v == Null && texts == []) || (v.List? && |v.items| <= 128 && SayAll(v.items, 4096, texts))
  }

  /** Python's `int`. */
  predicate Counts(rt: Runtime, v: Json, n: int) {
    match v
    case Int(i) => n == i
    case Bool(b) => (b && n == 1) || (!b && n == 0)
    case Real(r) => if r < 0.0 then n as real - 1.0 < r <= n as real else n as real <= r < n as real + 1.0
    case Str(s) => rt.parseInt(s) == Some(n)
    case _ => false
  }

  /** Python's `float`. */
  predicate Measures(rt: Runtime, v: Json, x: real) {
    match v
    case Int(i) => x == i as real
    case Bool(b) => (b && x == 1.0) || (!b && x == 0.0)
    case Real(r) => x == r
    case Str(s) => rt.parseReal(s) == Some(x)
    case _ => false
  }

  lemma FloorExactly(r: real, n: int)
    ensures r.Floor == n <==> n as real <= r < n as real + 1.0
  {
    var m := r.Floor;
    assert m as real <= r < (m + 1) as real;
    if n as real <= r < n as real + 1.0 {
      assert (n + 1) as real == n as real + 1.0;
      assert m < n + 1 && n < m + 1;
    }
  }

  lemma CountsExactly(rt: Runtime, v: Json, n: int)
    ensures ToInt(rt, v) == Some(n) <==> Counts(rt, v, n)
  {
    if v.Real? && v.r < 0.0 {
      FloorExactly(-v.r, -n);
      assert (-n) as real == -(n as real);
    } else if v.Real? {
      FloorExactly(v.r, n);
    }
  }

  lemma MeasuresExactly(rt: Runtime, v: Json, x: real)
    ensures ToReal(rt, v) == Some(x) <==> Measures(rt, v, x)
  {
  }

  lemma {:induction false} SayAllExactly(items: seq<Json>, maximum: nat, texts: seq<string>)
    ensures Texts(items, maximum) == Some(texts) <==> SayAll(items, maximum, texts)
  {
    if items != [] {
      var n := |items| - 1;
      if |texts| == |items| {
        SayAllExactly(items[..n], maximum, texts[..n]);
        BoundedTextMeans(items[n], maximum, texts[n]);
        assert texts == texts[..n] + [texts[n]];
        assert SayAll(items, maximum, texts) <==>
               SayAll(items[..n], maximum, texts[..n]) && Says(items[n], maximum, texts[n]);
      } else {
        TextsFix(items, maximum);
      }
    }
  }

  lemma ListsExactly(v: Json, texts: seq<string>)
    ensures TextList(v) == Some(texts) <==> Lists(v, texts)
  {
    if v.List? {
      SayAllExactly(v.items, 4096, texts);
    }
  }

  // ----- actors ------------------------------------------------------------------------------

  /** The item says who the actor is; one without a name is named by its place, counted from 1. */
  ghost predicate IsActor(item: Json, index: nat, a: Actor) {
    && item.Obj?
    && Says(Given(Field(item.fields, ActorName), Str("actor-" + Keys.Decimal(index + 1))), 128, a.name)
    && Says(Field(item.fields, Worker), 256, a.worker)
    && Says(Field(item.fields, Model), 256, a.model)
    && if Falsy(Field(item.fields, Role)) then a.role == None
       else a.role.Some? && Says(Field(item.fields, Role), 64, a.role.value)
  }

  /** As many as there are items, each in its place, and no two of one name. */
  ghost predicate AreActors(items: seq<Json>, actors: seq<Actor>) {
    && |actors| == |items|
    && (forall i: nat :: i < |items| ==> IsActor(items[i], i, actors[i]))
    && (forall i, j :: 0 <= i < j < |actors| ==> actors[i].name != actors[j].name)
  }

  lemma ActorParts(item: Json, index: nat, a: Actor)
    requires item.Obj?
    ensures ActorOf(item, index) == Some(a) <==>
              && BoundedText(Or(Get(item.fields, ActorName), Str("actor-" + Keys.Decimal(index + 1))), 128)
                 == Some(a.name)
              && BoundedText(Get(item.fields, Worker), 256) == Some(a.worker)
              && BoundedText(Get(item.fields, Model), 256) == Some(a.model)
              && if Truthy(Get(item.fields, Role))
                 then a.role.Some? && BoundedText(Get(item.fields, Role), 64) == a.role else a.role == None
  {
  }

  lemma ActorExactly(item: Json, index: nat, a: Actor)
    ensures ActorOf(item, index) == Some(a) <==> IsActor(item, index, a)
  {
    if item.Obj? {
      var f := item.fields;
      ActorParts(item, index, a);
      FalsyExactly(Get(f, ActorName));
      FalsyExactly(Get(f, Role));
      BoundedTextMeans(Or(Get(f, ActorName), Str("actor-" + Keys.Decimal(index + 1))), 128, a.name);
      BoundedTextMeans(Get(f, Worker), 256, a.worker);
      BoundedTextMeans(Get(f, Model), 256, a.model);
      if a.role.Some? {
        BoundedTextMeans(Get(f, Role), 64, a.role.value);
      }
    }
  }

  /** The readings of the items, each in its place. */
  function Read(items: seq<Json>): seq<Option<Actor>> {
    seq(|items|, i requires 0 <= i < |items| => ActorOf(items[i], i))
  }

  function Joined(read: seq<Option<Actor>>): Option<seq<Actor>> {
    if read == [] then Some([])
    else
      var rest, last := Joined(read[..|read| - 1]), read[|read| - 1];
      if rest.None? || last.None? || Named(rest.value, last.value.name) then None else Some(rest.value + [last.value])
  }

  lemma {:induction false} ActorsAreJoined(items: seq<Json>)
    ensures ActorsOf(items) == Joined(Read(items))
  {
    if items != [] {
      ActorsAreJoined(items[..|items| - 1]);
      assert Read(items)[..|items| - 1] == Read(items[..|items| - 1]);
    }
  }

  lemma {:induction false} JoinedExactly(read: seq<Option<Actor>>, actors: seq<Actor>)
    ensures Joined(read) == Some(actors) <==>
              && |actors| == |read| && (forall i :: 0 <= i < |read| ==> read[i] == Some(actors[i]))
              && (forall i, j :: 0 <= i < j < |actors| ==> actors[i].name != actors[j].name)
  {
    if read != [] {
      var n := |read| - 1;
      if |actors| == |read| {
        JoinedExactly(read[..n], actors[..n]);
        assert actors == actors[..n] + [actors[n]];
        assert Named(actors[..n], actors[n].name) <==> exists i :: 0 <= i < n && actors[i].name == actors[n].name;
      } else {
        JoinedLength(read);
      }
    }
  }

  lemma {:induction false} JoinedLength(read: seq<Option<Actor>>)
    ensures Joined(read).Some? ==> |Joined(read).value| == |read|
  {
    if read != [] {
      JoinedLength(read[..|read| - 1]);
    }
  }

  lemma ActorsExactly(items: seq<Json>, actors: seq<Actor>)
    ensures ActorsOf(items) == Some(actors) <==> AreActors(items, actors)
  {
    ActorsAreJoined(items);
    JoinedExactly(Read(items), actors);
    if |actors| == |items| {
      forall i: nat | i < |items| ensures Read(items)[i] == Some(actors[i]) <==> IsActor(items[i], i, actors[i]) {
        ActorExactly(items[i], i, actors[i]);
      }
    }
  }

  // ----- bounds --------------------------------------------------------------------------------

  function FieldOr(f: map<Name, Json>, name: Name, default: Json): Json {
    if name in f then f[name] else default
  }

  /** The six bounds, each with its default and its range. */
  predicate BoundsAre(rt: Runtime, f: map<Name, Json>, b: Bounds) {
    && Counts(rt, FieldOr(f, DurationSeconds, Int(3600)), b.duration) && 30 <= b.duration <= 7 * 24 * 3600
    && Counts(rt, FieldOr(f, MaxTurns, Int(48)), b.maxTurns) && 1 <= b.maxTurns <= 10000
    && Measures(rt, FieldOr(f, PollSeconds, Real(1.0)), b.poll) && 0.25 <= b.poll <= 30.0
    && Counts(rt, FieldOr(f, MaxTurnWaitSeconds, Int(900)), b.maxTurnWait) && 30 <= b.maxTurnWait <= 3600
    && Counts(rt, FieldOr(f, MaxHandoffChars, Int(12000)), b.maxHandoff) && 256 <= b.maxHandoff <= 100000
    && Counts(rt, FieldOr(f, MaxToolSteps, Int(8)), b.maxTools) && 0 <= b.maxTools <= 32
  }

  lemma BoundsExactly(rt: Runtime, f: map<Name, Json>, b: Bounds)
    ensures BoundsOf(rt, f) == Some(b) <==> BoundsAre(rt, f, b)
  {
    CountsExactly(rt, GetOr(f, DurationSeconds, Int(3600)), b.duration);
    CountsExactly(rt, GetOr(f, MaxTurns, Int(48)), b.maxTurns);
    MeasuresExactly(rt, GetOr(f, PollSeconds, Real(1.0)), b.poll);
    CountsExactly(rt, GetOr(f, MaxTurnWaitSeconds, Int(900)), b.maxTurnWait);
    CountsExactly(rt, GetOr(f, MaxHandoffChars, Int(12000)), b.maxHandoff);
    CountsExactly(rt, GetOr(f, MaxToolSteps, Int(8)), b.maxTools);
  }

  // ----- the concept ---------------------------------------------------------------------------

  /** The concept's raw values, defaults filled in, say what the concept is. */
  ghost predicate PartsSay(rt: Runtime, p: ConceptParts, c: ConceptSpec) {
    && Says(p.id, 512, c.id) && Says(p.language, 1024, c.language)
    && Says(p.hypothesis, 20000, c.hypothesis) && Says(p.task, 20000, c.task)
    && Lists(p.falsifiers, c.falsifiers) && Lists(p.protectedProperties, c.protectedProperties)
    && Lists(p.contracts, c.contracts)
    && p.target == Obj(c.target) && rt.size(Obj(c.target)) <= 64000
    && p.frozen == List(c.frozen) && rt.size(List(c.frozen)) <= 256000
    && p.hidden == List(c.hidden) && rt.size(List(c.hidden)) <= 256000
  }

  /** A concept object; one left out is empty. Hypothesis and task default to the goal. */
  ghost predicate IsConcept(rt: Runtime, goal: string, v: Json, c: ConceptSpec) {
    (Falsy(v) || v.Obj?) &&
    var f := if Falsy(v) then map[] else v.fields;
    PartsSay(rt, ConceptParts(
      Given(Field(f, ConceptId), Str(rt.conceptId(goal, Field(f, LanguageProfile)))),
      Given(Field(f, LanguageProfile), Str("unspecified")),
      Given(Field(f, TargetProfile), Obj(map[Other("kind") := Str("unspecified")])),
      Given(Field(f, Hypothesis), Str(goal)), Given(Field(f, Task), Str(goal)),
      Field(f, Falsifiers), Field(f, ProtectedProperties), Field(f, GoverningContracts),
      Given(Field(f, FrozenInputs), List([])), Given(Field(f, HiddenInputs), List([]))), c)
  }

  lemma BuildParts(rt: Runtime, p: ConceptParts, c: ConceptSpec)
    ensures BuildConcept(rt, p) == Some(c) <==>
              && BoundedText(p.id, 512) == Some(c.id) && BoundedText(p.language, 1024) == Some(c.language)
              && BoundedText(p.hypothesis, 20000) == Some(c.hypothesis) && BoundedText(p.task, 20000) == Some(c.task)
              && TextList(p.falsifiers) == Some(c.falsifiers)
              && TextList(p.protectedProperties) == Some(c.protectedProperties)
              && TextList(p.contracts) == Some(c.contracts)
              && p.target == Obj(c.target) && rt.size(Obj(c.target)) <= 64000
              && p.frozen == List(c.frozen) && rt.size(List(c.frozen)) <= 256000
              && p.hidden == List(c.hidden) && rt.size(List(c.hidden)) <= 256000
  {
  }

  lemma PartsExactly(rt: Runtime, p: ConceptParts, c: ConceptSpec)
    ensures BuildConcept(rt, p) == Some(c) <==> PartsSay(rt, p, c)
  {
    BuildParts(rt, p, c);
    BoundedTextMeans(p.id, 512, c.id);
    BoundedTextMeans(p.language, 1024, c.language);
    BoundedTextMeans(p.hypothesis, 20000, c.hypothesis);
    BoundedTextMeans(p.task, 20000, c.task);
    ListsExactly(p.falsifiers, c.falsifiers);
    ListsExactly(p.protectedProperties, c.protectedProperties);
    ListsExactly(p.contracts, c.contracts);
  }

  lemma GivenExactly(v: Json, default: Json)
    ensures Given(v, default) == Or(v, default)
  {
    FalsyExactly(v);
  }

  lemma ConceptExactly(rt: Runtime, goal: string, v: Json, c: ConceptSpec)
    ensures ConceptOf(rt, goal, v) == Some(c) <==> IsConcept(rt, goal, v, c)
  {
    FalsyExactly(v);
    if Falsy(v) || v.Obj? {
      var f := if Falsy(v) then map[] else v.fields;
      GivenExactly(Field(f, ConceptId), Str(rt.conceptId(goal, Field(f, LanguageProfile))));
      GivenExactly(Field(f, LanguageProfile), Str("unspecified"));
      GivenExactly(Field(f, TargetProfile), Obj(map[Other("kind") := Str("unspecified")]));
      GivenExactly(Field(f, Hypothesis), Str(goal));
      GivenExactly(Field(f, Task), Str(goal));
      GivenExactly(Field(f, FrozenInputs), List([]));
      GivenExactly(Field(f, HiddenInputs), List([]));
      PartsExactly(rt, ConceptPartsOf(rt, goal, f), c);
    }
  }

  // ----- the specification ------------------------------------------------------------------------

  /** `str` of a value. */
  function Text(rt: Runtime, v: Json): string {
    if v.Str? then v.s else rt.show(v)
  }

  lemma StripExactly(s: string, t: string)
    ensures Strip(s) == t <==> Surrounds(s, t)
  {
    StripTrims(s);
    var a, b := StripCuts(s);
    assert Between(a, Strip(s), b) == s;
    if Surrounds(s, t) {
      var a', b' :| s == Between(a', t, b') && AllSpace(a') && AllSpace(b');
      StripDrops(a', t, b');
    }
  }

  ghost predicate ListsAre(p: Parts, s: Spec) {
    && p.actors.List? && 1 <= |p.actors.items| <= 32 && AreActors(p.actors.items, s.actors)
    && p.stages.List? && 1 <= |p.stages.items| <= 64 && SayAll(p.stages.items, 12000, s.stages)
  }

  ghost predicate IntentIs(rt: Runtime, p: Parts, s: Spec) {
    Says(p.goal, 20000, s.goal) && IsConcept(rt, s.goal, p.concept, s.concept)
  }

  ghost predicate InstructionsAre(rt: Runtime, p: Parts, s: Spec) {
    && s.handoff == Text(rt, p.handoff) && |s.handoff| <= s.bounds.maxHandoff
    && Surrounds(Text(rt, p.instructions), s.instructions)
    && |s.instructions| <= 20000 && (forall i :: 0 <= i < |s.instructions| ==> s.instructions[i] != '\0')
  }

  predicate OptionsAre(rt: Runtime, p: Parts, s: Spec) {
    && s.residency == Text(rt, p.residency) && (s.residency == "pinned" || s.residency == "request")
    && s.releaseOnEnd == !Falsy(p.releaseOnEnd) && s.stopOnFailure == !Falsy(p.stopOnFailure)
  }

  /** What the raw values say, defaults filled in. */
  ghost predicate AllSay(rt: Runtime, p: Parts, s: Spec) {
    ListsAre(p, s) && IntentIs(rt, p, s) && InstructionsAre(rt, p, s) && OptionsAre(rt, p, s)
  }

  /** The value is read as the specification. */
  ghost predicate IsReadAs(rt: Runtime, v: Json, s: Spec) {
    v.Obj? &&
    var f := v.fields;
    && BoundsAre(rt, f, s.bounds)
    && AllSay(rt, Parts(
         Field(f, Goal), Field(f, Concept), Field(f, Actors), Field(f, Stages),
         Given(Field(f, InitialHandoff), Str("No prior handoff is available.")),
         Given(Field(f, Instructions), Str("")), Given(Field(f, ResidencyMode), Str("pinned")),
         FieldOr(f, ReleaseModelsOnEnd, Bool(true)), FieldOr(f, StopOnTurnFailure, Bool(true))), s)
  }

  lemma ListsMean(p: Parts, s: Spec)
    ensures ActorList(p.actors) == Some(s.actors) && StageTexts(p.stages) == Some(s.stages) <==> ListsAre(p, s)
  {
    if p.actors.List? {
      ActorsExactly(p.actors.items, s.actors);
    }
    if p.stages.List? {
      SayAllExactly(p.stages.items, 12000, s.stages);
    }
  }

  lemma IntentMeans(rt: Runtime, p: Parts, s: Spec)
    ensures BoundedText(p.goal, 20000) == Some(s.goal) && ConceptOf(rt, s.goal, p.concept) == Some(s.concept)
       <==> IntentIs(rt, p, s)
  {
    BoundedTextMeans(p.goal, 20000, s.goal);
    ConceptExactly(rt, s.goal, p.concept, s.concept);
  }

  predicate BuildsInstructions(rt: Runtime, p: Parts, s: Spec) {
    && s.handoff == Show(rt, p.handoff) && |s.handoff| <= s.bounds.maxHandoff
    && Strip(Show(rt, p.instructions)) == s.instructions
    && |s.instructions| <= 20000 && '\0' !in s.instructions
  }

  lemma InstructionsMean(rt: Runtime, p: Parts, s: Spec)
    ensures BuildsInstructions(rt, p, s) <==> InstructionsAre(rt, p, s)
  {
    StripExactly(Show(rt, p.instructions), s.instructions);
  }

  predicate BuildsOptions(rt: Runtime, p: Parts, s: Spec) {
    && s.residency == Show(rt, p.residency) && KnownResidency(s.residency)
    && s.releaseOnEnd == Truthy(p.releaseOnEnd) && s.stopOnFailure == Truthy(p.stopOnFailure)
  }

  lemma OptionsMean(rt: Runtime, p: Parts, s: Spec)
    ensures BuildsOptions(rt, p, s) <==> OptionsAre(rt, p, s)
  {
    FalsyExactly(p.releaseOnEnd);
    FalsyExactly(p.stopOnFailure);
  }

  lemma BuildMeans(rt: Runtime, p: Parts, bounds: Option<Bounds>, s: Spec)
    ensures Build(rt, p, bounds) == Some(s) <==>
              && bounds == Some(s.bounds)
              && (ActorList(p.actors) == Some(s.actors) && StageTexts(p.stages) == Some(s.stages))
              && (BoundedText(p.goal, 20000) == Some(s.goal) && ConceptOf(rt, s.goal, p.concept) == Some(s.concept))
              && BuildsInstructions(rt, p, s) && BuildsOptions(rt, p, s)
  {
  }

  lemma BuildExactly(rt: Runtime, p: Parts, bounds: Option<Bounds>, s: Spec)
    ensures Build(rt, p, bounds) == Some(s) <==> bounds == Some(s.bounds) && AllSay(rt, p, s)
  {
    BuildMeans(rt, p, bounds, s);
    ListsMean(p, s);
    IntentMeans(rt, p, s);
    InstructionsMean(rt, p, s);
    OptionsMean(rt, p, s);
  }

  /** `validate_spec` accepts a value exactly if it is so read, and returns what it is read as. */
  lemma AcceptedExactly(rt: Runtime, v: Json, s: Spec)
    ensures Validate(rt, v) == Some(s) <==> IsReadAs(rt, v, s)
  {
    if v.Obj? {
      var f := v.fields;
      GivenExactly(Field(f, InitialHandoff), Str("No prior handoff is available."));
      GivenExactly(Field(f, Instructions), Str(""));
      GivenExactly(Field(f, ResidencyMode), Str("pinned"));
      BoundsExactly(rt, f, s.bounds);
      BuildExactly(rt, PartsOf(f), BoundsOf(rt, f), s);
    }
  }
}
