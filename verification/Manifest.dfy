/** The frozen concept manifest (`build_concept_manifest`), its identity check in `_load`, and
    reruns (`start`, `rerun`). */
module Manifest {
  import opened Wrappers
  import opened Spec

  const MANIFEST_SCHEMA := "mncs-control.concept-experiment-manifest.v0.1"

  /** `_identity` over the canonical encoding, taken as a digest without collisions. */
  ghost predicate Injective(digest: Json -> string) {
    forall a, b :: digest(a) == digest(b) ==> a == b
  }

  function Budget(b: Bounds): Json {
    Obj(map[DurationSeconds := Int(b.duration), MaxTurns := Int(b.maxTurns),
            MaxTurnWaitSeconds := Int(b.maxTurnWait), MaxHandoffChars := Int(b.maxHandoff),
            MaxToolSteps := Int(b.maxTools)])
  }

  /** What the manifest says, before its identity is added. */
  function Material(
      id: string, s: Spec, frozenAt: string, rerunOf: Option<string>, authority: string): map<Name, Json>
  {
    map[Schema := Str(MANIFEST_SCHEMA), ExperimentId := Str(id), FamilyRecordId := Str(id),
        FrozenAt := Str(frozenAt),
        ConceptId := Str(s.concept.id), LanguageProfile := Str(s.concept.language),
        TargetProfile := Obj(s.concept.target), Hypothesis := Str(s.concept.hypothesis), Task := Str(s.concept.task),
        Falsifiers := List(Strings(s.concept.falsifiers)),
        ProtectedProperties := List(Strings(s.concept.protectedProperties)),
        GoverningContracts := List(Strings(s.concept.contracts)),
        FrozenInputs := List(s.concept.frozen), HiddenInputs := List(s.concept.hidden),
        Actors := List(ActorJsons(s.actors)), ResourceBudget := Budget(s.bounds),
        RerunOf := if rerunOf.Some? then Str(rerunOf.value) else Null, AuthorityBoundary := Str(authority)]
  }

  function Sealed(digest: Json -> string, material: map<Name, Json>): map<Name, Json> {
    material[ManifestIdentity := Str(digest(Obj(material)))]
  }

  /** The check of `_load`; a state without a manifest passes. */
  predicate Loads(digest: Json -> string, manifest: Json) {
    match manifest
    case Null => true
    case Obj(fields) =>
      && Get(fields, Schema) == Str(MANIFEST_SCHEMA)
      && Get(fields, ManifestIdentity) == Str(digest(Obj(fields - {ManifestIdentity})))
    case _ => false
  }

  /** A freshly built manifest always passes. */
  lemma FreshManifestLoads(
      digest: Json -> string, id: string, s: Spec, frozenAt: string, rerunOf: Option<string>, authority: string)
    ensures Loads(digest, Obj(Sealed(digest, Material(id, s, frozenAt, rerunOf, authority))))
  {
    var m := Material(id, s, frozenAt, rerunOf, authority);
    assert ManifestIdentity !in m && Schema in m;
    assert Sealed(digest, m) - {ManifestIdentity} == m;
    assert Get(Sealed(digest, m), Schema) == m[Schema];
  }

  /** A manifest that passes is the only one that passes under its identity: no field of it can
      change while the identity stays. */
  lemma FrozenUnderItsIdentity(digest: Json -> string, m: map<Name, Json>, n: map<Name, Json>)
    requires Injective(digest) && Loads(digest, Obj(m)) && Loads(digest, Obj(n))
    ensures m == n <==> Get(m, ManifestIdentity) == Get(n, ManifestIdentity)
  {
    if Get(m, ManifestIdentity) == Get(n, ManifestIdentity) {
      assert Obj(m - {ManifestIdentity}) == Obj(n - {ManifestIdentity});
      assert ManifestIdentity in m && ManifestIdentity in n;
      assert m == (m - {ManifestIdentity})[ManifestIdentity := m[ManifestIdentity]];
      assert n == (n - {ManifestIdentity})[ManifestIdentity := n[ManifestIdentity]];
    }
  }

  /** Writing one other field of a manifest that passes makes it fail, unless nothing changes. */
  lemma AlteredManifestIsRefused(digest: Json -> string, m: map<Name, Json>, name: Name, v: Json)
    requires Injective(digest) && Loads(digest, Obj(m)) && name != ManifestIdentity
    ensures Loads(digest, Obj(m[name := v])) <==> name in m && m[name] == v
  {
    var n := m[name := v];
    if Loads(digest, Obj(n)) {
      FrozenUnderItsIdentity(digest, m, n);
    }
    if name in m && m[name] == v {
      assert n == m;
    }
  }

  /** A manifest of another schema is refused under any identity, and so is whatever is no object; a state
      without one passes. */
  lemma OthersAreRefused(digest: Json -> string, v: Json)
    ensures Loads(digest, Null)
    ensures v != Null && !v.Obj? ==> !Loads(digest, v)
    ensures v.Obj? && !(Schema in v.fields && v.fields[Schema] == Str(MANIFEST_SCHEMA)) ==> !Loads(digest, v)
  {
  }

  // ----- what is frozen ------------------------------------------------------------------

  const CONCEPT_NAMES := {
    ConceptId, LanguageProfile, TargetProfile, Hypothesis, Task, Falsifiers, ProtectedProperties,
    GoverningContracts, FrozenInputs, HiddenInputs}
  const BUDGET_NAMES := {DurationSeconds, MaxTurns, MaxTurnWaitSeconds, MaxHandoffChars, MaxToolSteps}
  const OWN_NAMES := {
    Schema, ExperimentId, FamilyRecordId, FrozenAt, Actors, ResourceBudget, RerunOf, AuthorityBoundary,
    ManifestIdentity}

  lemma ConceptIsCarried(id: string, s: Spec, at: string, of: Option<string>, authority: string, name: Name)
    requires name in CONCEPT_NAMES
    ensures var m := Material(id, s, at, of, authority);
            name in m && name in ConceptJson(s.concept).fields && m[name] == ConceptJson(s.concept).fields[name]
  {
  }

  lemma NamesAreCarried(id: string, s: Spec, at: string, of: Option<string>, authority: string)
    ensures Material(id, s, at, of, authority).Keys == CONCEPT_NAMES + OWN_NAMES - {ManifestIdentity}
    ensures ConceptJson(s.concept).fields.Keys == CONCEPT_NAMES
  {
  }

  lemma BudgetIsCarried(s: Spec, claim: string)
    ensures Budget(s.bounds).fields.Keys == BUDGET_NAMES
    ensures forall name <- BUDGET_NAMES ::
              name in SpecJson(s, claim).fields && Budget(s.bounds).fields[name] == SpecJson(s, claim).fields[name]
  {
    var budget, spec := Budget(s.bounds).fields, SpecJson(s, claim).fields;
    assert budget[DurationSeconds] == spec[DurationSeconds] && budget[MaxTurns] == spec[MaxTurns];
    assert budget[MaxTurnWaitSeconds] == spec[MaxTurnWaitSeconds];
    assert budget[MaxHandoffChars] == spec[MaxHandoffChars] && budget[MaxToolSteps] == spec[MaxToolSteps];
  }

  lemma OwnIsCarried(id: string, s: Spec, at: string, of: Option<string>, authority: string)
    ensures var m := Material(id, s, at, of, authority);
            && Actors in m && m[Actors] == List(ActorJsons(s.actors))
            && ResourceBudget in m && m[ResourceBudget] == Budget(s.bounds)
            && ExperimentId in m && FamilyRecordId in m && m[ExperimentId] == m[FamilyRecordId] == Str(id)
            && FrozenAt in m && m[FrozenAt] == Str(at)
            && RerunOf in m && m[RerunOf] == (match of case None => Null case Some(predecessor) => Str(predecessor))
            && Schema in m && m[Schema] == Str(MANIFEST_SCHEMA)
            && AuthorityBoundary in m && m[AuthorityBoundary] == Str(authority)
  {
  }

  /** The manifest says under each name what the specification says under it: the whole concept, the actors,
      and of the bounds all but the polling interval; and nothing else but who, when and from what. */
  lemma ManifestCarriesTheSpec(
      digest: Json -> string, id: string, s: Spec, at: string, of: Option<string>, texts: Texts, name: Name)
    ensures var m := Sealed(digest, Material(id, s, at, of, texts.authority));
            var spec := SpecJson(s, texts.claim).fields;
            && (name in m <==> name in CONCEPT_NAMES || name in OWN_NAMES)
            && (name in CONCEPT_NAMES ==> Get(m, name) == Get(ConceptJson(s.concept).fields, name))
            && Get(spec, Concept) == ConceptJson(s.concept)
            && Get(m, Actors) == Get(spec, Actors)
            && Get(m, ResourceBudget).Obj?
            && (name in Get(m, ResourceBudget).fields <==> name in BUDGET_NAMES)
            && (name in BUDGET_NAMES ==> Get(Get(m, ResourceBudget).fields, name) == Get(spec, name))
            && Get(m, ExperimentId) == Get(m, FamilyRecordId) == Str(id) && Get(m, FrozenAt) == Str(at)
            && Get(m, RerunOf) == (match of case None => Null case Some(predecessor) => Str(predecessor))
  {
    NamesAreCarried(id, s, at, of, texts.authority);
    BudgetIsCarried(s, texts.claim);
    OwnIsCarried(id, s, at, of, texts.authority);
    if name in CONCEPT_NAMES {
      ConceptIsCarried(id, s, at, of, texts.authority, name);
    }
    SpecHolds(s, texts.claim);
  }

  lemma SpecHolds(s: Spec, claim: string)
    ensures var spec := SpecJson(s, claim).fields;
            && Concept in spec && spec[Concept] == ConceptJson(s.concept)
            && Actors in spec && spec[Actors] == List(ActorJsons(s.actors))
  {
  }

  lemma StringsAreDetermined(a: seq<string>, b: seq<string>)
    requires Strings(a) == Strings(b)
    ensures a == b
  {
    assert |Strings(a)| == |Strings(b)|;
    forall i | 0 <= i < |a| ensures a[i] == b[i] {
      assert Strings(a)[i] == Strings(b)[i];
    }
  }

  lemma ActorIsDetermined(a: Actor, b: Actor)
    requires ActorJson(a) == ActorJson(b)
    ensures a == b
  {
    var f, g := ActorJson(a).fields, ActorJson(b).fields;
    assert f[ActorName] == g[ActorName] && f[Worker] == g[Worker] && f[Model] == g[Model];
    assert Role in f <==> Role in g;
    if Role in f {
      assert f[Role] == g[Role];
    }
  }

  lemma ActorsAreDetermined(a: seq<Actor>, b: seq<Actor>)
    requires ActorJsons(a) == ActorJsons(b)
    ensures a == b
  {
    assert |ActorJsons(a)| == |ActorJsons(b)|;
    forall i | 0 <= i < |a| ensures a[i] == b[i] {
      assert ActorJsons(a)[i] == ActorJsons(b)[i];
      ActorIsDetermined(a[i], b[i]);
    }
  }

  lemma ConceptIsDetermined(a: ConceptSpec, b: ConceptSpec)
    requires forall name <- CONCEPT_NAMES :: Get(ConceptJson(a).fields, name) == Get(ConceptJson(b).fields, name)
    ensures a == b
  {
    var f, g := ConceptJson(a).fields, ConceptJson(b).fields;
    forall name <- CONCEPT_NAMES ensures name in f && name in g && f[name] == g[name] {
      assert Get(f, name) == Get(g, name);
    }
    StringsAreDetermined(a.falsifiers, b.falsifiers);
    StringsAreDetermined(a.protectedProperties, b.protectedProperties);
    StringsAreDetermined(a.contracts, b.contracts);
  }

  lemma BudgetIsDetermined(a: Bounds, b: Bounds)
    requires Budget(a) == Budget(b)
    ensures a == b.(poll := a.poll)
  {
    var f, g := Budget(a).fields, Budget(b).fields;
    assert f[DurationSeconds] == g[DurationSeconds] && f[MaxTurns] == g[MaxTurns];
    assert f[MaxTurnWaitSeconds] == g[MaxTurnWaitSeconds];
    assert f[MaxHandoffChars] == g[MaxHandoffChars] && f[MaxToolSteps] == g[MaxToolSteps];
  }

  lemma EqualMaterials(
      id: string, s: Spec, at: string, of: Option<string>,
      id': string, s': Spec, at': string, of': Option<string>, authority: string)
    requires Material(id, s, at, of, authority) == Material(id', s', at', of', authority)
    ensures id == id' && at == at' && of == of' && s.concept == s'.concept && s.actors == s'.actors
    ensures s.bounds == s'.bounds.(poll := s.bounds.poll)
  {
    OwnIsCarried(id, s, at, of, authority);
    OwnIsCarried(id', s', at', of', authority);
    ActorsAreDetermined(s.actors, s'.actors);
    BudgetIsDetermined(s.bounds, s'.bounds);
    forall name <- CONCEPT_NAMES
      ensures Get(ConceptJson(s.concept).fields, name) == Get(ConceptJson(s'.concept).fields, name)
    {
      ConceptIsCarried(id, s, at, of, authority, name);
      ConceptIsCarried(id', s', at', of', authority, name);
    }
    ConceptIsDetermined(s.concept, s'.concept);
  }

  /** Two manifests have one identity exactly if they freeze the same intent: concept, actors and bounds
      except the polling interval, under the same experiment, time and predecessor. */
  lemma IdentityFixesIntent(
      digest: Json -> string, id: string, s: Spec, at: string, of: Option<string>,
      id': string, s': Spec, at': string, of': Option<string>, authority: string)
    requires Injective(digest)
    ensures Get(Sealed(digest, Material(id, s, at, of, authority)), ManifestIdentity)
            == Get(Sealed(digest, Material(id', s', at', of', authority)), ManifestIdentity)
       <==> && id == id' && at == at' && of == of' && s.concept == s'.concept && s.actors == s'.actors
            && s.bounds == s'.bounds.(poll := s.bounds.poll)
  {
    var m, n := Material(id, s, at, of, authority), Material(id', s', at', of', authority);
    assert Get(Sealed(digest, m), ManifestIdentity) == Get(Sealed(digest, n), ManifestIdentity)
           <==> digest(Obj(m)) == digest(Obj(n));
    if digest(Obj(m)) == digest(Obj(n)) {
      assert Obj(m) == Obj(n);
      EqualMaterials(id, s, at, of, id', s', at', of', authority);
    }
  }

  // ----- reruns ------------------------------------------------------------------------

  /** The parts of a stored state that a start freezes. */
  datatype Started = Started(id: string, spec: Json, specIdentity: string, manifest: map<Name, Json>)

  /** Constant texts of the program. */
  datatype Texts = Texts(claim: string, authority: string)

  function Start(
      rt: Runtime, digest: Json -> string, texts: Texts, raw: Json, id: string, at: string, rerunOf: Option<string>)
      : Option<Started>
  {
    var spec := Validate(rt, raw);
    if spec.None? then None
    else
      var json := SpecJson(spec.value, texts.claim);
      Some(Started(id, json, digest(json),
                   Sealed(digest, Material(id, spec.value, at, rerunOf, texts.authority))))
  }

  /** `rerun` starts again from the stored specification. */
  function Rerun(
      rt: Runtime, digest: Json -> string, texts: Texts, predecessor: Started, id: string, at: string): Option<Started>
  {
    Start(rt, digest, texts, predecessor.spec, id, at, Some(predecessor.id))
  }

  function Reruns(
      rt: Runtime, digest: Json -> string, texts: Texts, first: Started, chain: seq<(string, string)>): Option<Started>
  {
    if chain == [] then Some(first)
    else
      var before := Reruns(rt, digest, texts, first, chain[..|chain| - 1]);
      if before.None? then None
      else Rerun(rt, digest, texts, before.value, chain[|chain| - 1].0, chain[|chain| - 1].1)
  }

  predicate Differs(name: Name) {
    name == ExperimentId || name == FamilyRecordId || name == FrozenAt || name == RerunOf || name == ManifestIdentity
  }

  lemma MaterialsDiffer(digest: Json -> string, s: Spec, id: string, at: string, of: Option<string>,
                        id': string, at': string, of': Option<string>, authority: string, name: Name)
    requires !Differs(name)
    ensures Get(Sealed(digest, Material(id, s, at, of, authority)), name)
            == Get(Sealed(digest, Material(id', s, at', of', authority)), name)
  {
  }

  /** What a rerun keeps of the experiment it starts from. */
  ghost predicate KeepsSpec(digest: Json -> string, first: Started, last: Started) {
    && last.spec == first.spec && last.specIdentity == first.specIdentity
    && Loads(digest, Obj(last.manifest))
    && forall name :: !Differs(name) ==> Get(last.manifest, name) == Get(first.manifest, name)
  }

  lemma OneRerunKeeps(
      rt: Runtime, digest: Json -> string, texts: Texts, spec: Spec, first: Started, before: Started,
      id: string, at: string)
    requires Validate(rt, SpecJson(spec, texts.claim)) == Some(spec) && before.spec == SpecJson(spec, texts.claim)
    requires first.spec == before.spec && first.specIdentity == digest(first.spec)
    requires exists i, a, of :: first.manifest == Sealed(digest, Material(i, spec, a, of, texts.authority))
    ensures var r := Rerun(rt, digest, texts, before, id, at); r.Some? && KeepsSpec(digest, first, r.value)
  {
    var i, a, of :| first.manifest == Sealed(digest, Material(i, spec, a, of, texts.authority));
    FreshManifestLoads(digest, id, spec, at, Some(before.id), texts.authority);
    forall name | !Differs(name)
      ensures Get(Rerun(rt, digest, texts, before, id, at).value.manifest, name) == Get(first.manifest, name)
    {
      MaterialsDiffer(digest, spec, id, at, Some(before.id), i, a, of, texts.authority, name);
    }
  }

  /** However long the chain of reruns, each is accepted, and carries the same specification and
      specification identity; its manifest differs only in the names, times and identity. */
  lemma {:induction false} RerunsKeepTheSpec(
      rt: Runtime, digest: Json -> string, texts: Texts, raw: Json, id: string, at: string, of: Option<string>,
      chain: seq<(string, string)>)
    requires ShowsSomething(rt)
    ensures var first := Start(rt, digest, texts, raw, id, at, of);
            first.Some? ==>
              var last := Reruns(rt, digest, texts, first.value, chain);
              last.Some? && KeepsSpec(digest, first.value, last.value)
  {
    var started := Start(rt, digest, texts, raw, id, at, of);
    if started.Some? {
      var spec, first := Validate(rt, raw).value, started.value;
      if chain == [] {
        FreshManifestLoads(digest, id, spec, at, of, texts.authority);
      } else {
        RerunsKeepTheSpec(rt, digest, texts, raw, id, at, of, chain[..|chain| - 1]);
        ValidateIsIdempotent(rt, raw, texts.claim);
        var before := Reruns(rt, digest, texts, first, chain[..|chain| - 1]).value;
        OneRerunKeeps(rt, digest, texts, spec, first, before, chain[|chain| - 1].0, chain[|chain| - 1].1);
      }
    }
  }
}
