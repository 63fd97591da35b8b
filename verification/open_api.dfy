/**
 * The `OpenApi` provider: endpoint listing and the per-category component
 * getters behind `handleComponentObject`. The getters are kept fault for
 * fault, including the four chained ones that read `components.responses`;
 * the one change is the cycle guard of `Components.Chase`.
 */
module OpenApi {
  import opened Wrappers
  import opened Records
  import opened JsValues
  import opened Pointer
  import opened Components

  /**
   * `getEndpoints`: `Object.keys(spec.paths)`, which throws when the
   * document has no `paths`.
   */
  function GetEndpoints(doc: Document): (r: Result<seq<string>, TypeError>)
    ensures r.Failure? <==> doc.paths.None?
    ensures r.Failure? ==> r.error == NotAnObject
    ensures r.Success? ==> |r.value| == |doc.paths.value.entries|
    ensures r.Success? ==> forall i :: 0 <= i < |r.value| ==> r.value[i] == doc.paths.value.entries[i].0
    ensures r.Success? ==> forall k :: k in r.value <==> Get(doc.paths.value, k).Some?
    ensures r.Success? && Valid(doc.paths.value) ==>
              forall i, j :: 0 <= i < j < |r.value| ==> r.value[i] != r.value[j]
  {
    match doc.paths
    case None => Failure(NotAnObject)
    case Some(paths) => Success(Keys(paths))
  }

  /**
   * Declaring a new path appends it to the endpoint list; redeclaring one
   * keeps its place. Either way the paths stay free of repeated keys.
   */
  lemma EndpointsFollowDeclarationOrder(paths: Record<Json>, path: string, item: Json)
    ensures path !in Keys(paths) ==>
              GetEndpoints(Document(Some(Put(paths, path, item)), None)) ==
              Success(Keys(paths) + [path])
    ensures path in Keys(paths) ==>
              GetEndpoints(Document(Some(Put(paths, path, item)), None)) == Success(Keys(paths))
    ensures Valid(paths) ==> Valid(Put(paths, path, item))
  {
    if Valid(paths) {
      PutValid(paths, path, item);
    }
    var after := Put(paths, path, item);
    assert GetEndpoints(Document(Some(after), None)) == Success(Keys(after));
    if path !in Keys(paths) {
      PutAppendsKey(paths, path, item);
    }
  }

  /**
   * The shape of a single-lookup getter's answer: a `TypeError` when the
   * components or the category map are absent, otherwise the stored entry
   * verbatim (even one that is itself a `$ref`) or `undefined`.
   */
  predicate ReturnsStoredEntry(doc: Document, c: Category, ref: string, r: Answer)
  {
    && (r.Failed? <==> ComponentMap(doc, c).None?)
    && (r.Failed? ==> r.fault.Thrown? && r.fault.error.ReadOfNullish?)
    && (ComponentMap(doc, c).Some? ==>
          (ref in ComponentMap(doc, c).value ==> r == Found(ComponentMap(doc, c).value[ref])) &&
          (ref !in ComponentMap(doc, c).value ==> r == Undefined))
  }

  /** `spec.components[c][ref]`, one property read per level. */
  function LookupOnce(doc: Document, c: Category, ref: string): Answer
  {
    match doc.components
    case None => Failed(Thrown(ReadOfNullish(CategoryName(c))))
    case Some(comps) =>
      if c !in comps then Failed(Thrown(ReadOfNullish(ref)))
      else if ref in comps[c] then Found(comps[c][ref])
      else Undefined
  }

  function GetSchemaObject(doc: Document, ref: string): (r: Answer)
    ensures ReturnsStoredEntry(doc, Schemas, ref, r)
  {
    LookupOnce(doc, Schemas, ref)
  }

  function GetExampleObject(doc: Document, ref: string): (r: Answer)
    ensures ReturnsStoredEntry(doc, Examples, ref, r)
  {
    LookupOnce(doc, Examples, ref)
  }

  function GetHeadersObject(doc: Document, ref: string): (r: Answer)
    ensures ReturnsStoredEntry(doc, Headers, ref, r)
  {
    LookupOnce(doc, Headers, ref)
  }

  function GetLinksObject(doc: Document, ref: string): (r: Answer)
    ensures ReturnsStoredEntry(doc, Links, ref, r)
  {
    LookupOnce(doc, Links, ref)
  }

  function GetPathItemsObject(doc: Document, ref: string): (r: Answer)
    ensures ReturnsStoredEntry(doc, PathItems, ref, r)
  {
    LookupOnce(doc, PathItems, ref)
  }

  /**
   * The shape of a chained getter's answer, over `components.responses`:
   * never `undefined`; a `TypeError` when the components or the responses
   * map are absent, or when the first key is missing (the code reads `$ref`
   * of `undefined`); and a found entry is one stored in that map that is
   * not itself a reference.
   */
  predicate ResolvesInResponses(doc: Document, ref: string, r: Answer)
  {
    && r != Undefined
    && (ComponentMap(doc, Responses).None? ==> r.Failed? && r.fault.Thrown?)
    && (ComponentMap(doc, Responses).Some? && ref !in ComponentMap(doc, Responses).value ==>
          r == Failed(Thrown(ReadOfNullish("$ref"))))
    && (r.Found? ==> r.entry in ComponentMap(doc, Responses).value.Values && !IsReference(r.entry))
  }

  /**
   * `getResponseObject`: look `ref` up in `components.responses` and follow
   * `$ref`s by their last piece until an entry without one.
   */
  function GetResponseObject(doc: Document, ref: string): (r: Answer)
    ensures ResolvesInResponses(doc, ref, r)
  {
    match doc.components
    case None => Failed(Thrown(ReadOfNullish(CategoryName(Responses))))
    case Some(comps) =>
      if Responses !in comps then Failed(Thrown(ReadOfNullish(ref)))
      else
        var m := comps[Responses];
        var r := Chase(Steps(m), ref, {});
        if r.Found? then
          StepsDoneAreStoredEntries(m, r.entry);
          r
        else r
  }

  /** A `Done` step of a component map is an entry stored in it that is not a reference. */
  lemma StepsDoneAreStoredEntries(m: map<string, Json>, e: Json)
    requires Done(e) in Steps(m).Values
    ensures e in m.Values && !IsReference(e)
  {
    var k :| k in Steps(m) && Steps(m)[k] == Done(e);
    assert HopOf(m[k]) == Done(e);
    assert m[k] == e;
  }

  /** `getParameterObject`: reads `components.responses`, exactly as the responses getter. */
  function GetParameterObject(doc: Document, ref: string): (r: Answer)
    ensures ResolvesInResponses(doc, ref, r)
  {
    GetResponseObject(doc, ref)
  }

  /** `getRequestBodiesObject`: reads `components.responses`, exactly as the responses getter. */
  function GetRequestBodiesObject(doc: Document, ref: string): (r: Answer)
    ensures ResolvesInResponses(doc, ref, r)
  {
    GetResponseObject(doc, ref)
  }

  /** `getSecuritySchemesObject`: reads `components.responses`, exactly as the responses getter. */
  function GetSecuritySchemesObject(doc: Document, ref: string): (r: Answer)
    ensures ResolvesInResponses(doc, ref, r)
  {
    GetResponseObject(doc, ref)
  }

  /** `getCallbacksObject`: reads `components.responses`, exactly as the responses getter. */
  function GetCallbacksObject(doc: Document, ref: string): (r: Answer)
    ensures ResolvesInResponses(doc, ref, r)
  {
    GetResponseObject(doc, ref)
  }

  /**
   * The getter `handleComponentObject` calls for each category: the
   * single-lookup ones read their own map, all five chained ones read
   * `components.responses`.
   */
  function ComponentGetter(doc: Document, c: Category, ref: string): (r: Answer)
    ensures !Chained(c) ==> ReturnsStoredEntry(doc, c, ref, r)
    ensures Chained(c) ==> ResolvesInResponses(doc, ref, r)
  {
    match c
    case Schemas => GetSchemaObject(doc, ref)
    case Responses => GetResponseObject(doc, ref)
    case Parameters => GetParameterObject(doc, ref)
    case Examples => GetExampleObject(doc, ref)
    case RequestBodies => GetRequestBodiesObject(doc, ref)
    case Headers => GetHeadersObject(doc, ref)
    case SecuritySchemes => GetSecuritySchemesObject(doc, ref)
    case Links => GetLinksObject(doc, ref)
    case Callbacks => GetCallbacksObject(doc, ref)
    case PathItems => GetPathItemsObject(doc, ref)
  }

  /** The categories whose getter follows `$ref` chains. */
  predicate Chained(c: Category)
  {
    c in {Responses, Parameters, RequestBodies, SecuritySchemes, Callbacks}
  }

  /**
   * The chained getters against the recursion as written: whenever the
   * unguarded chain over `components.responses` returns, every chained
   * getter gives the same answer.
   */
  lemma ChainedGetterFollowsSource(doc: Document, c: Category, ref: string, m: map<string, Json>, fuel: nat)
    requires Chained(c) && ComponentMap(doc, Responses) == Some(m)
    requires SourceChase(Steps(m), ref, fuel).Some?
    ensures ComponentGetter(doc, c, ref) == SourceChase(Steps(m), ref, fuel).value
  {
    ChaseAgreesWithSource(Steps(m), ref, fuel);
  }

  /**
   * The one place a chained getter departs from the code: it reports
   * `CircularReference` exactly on the chains the unguarded recursion never
   * leaves, and on every other chain `|m| + 1` calls of that recursion
   * return the getter's answer.
   */
  lemma ChainedGetterCircularIffSourceDiverges(doc: Document, c: Category, ref: string, m: map<string, Json>, fuel: nat)
    requires Chained(c) && ComponentMap(doc, Responses) == Some(m)
    ensures IsCircular(ComponentGetter(doc, c, ref)) ==> SourceChase(Steps(m), ref, fuel) == None
    ensures !IsCircular(ComponentGetter(doc, c, ref)) ==>
              SourceChase(Steps(m), ref, |m.Keys| + 1) == Some(ComponentGetter(doc, c, ref))
  {
    CircularIffSourceDiverges(Steps(m), ref, fuel);
  }

  /** Replacing a category's own map never changes what the chained getters answer. */
  lemma ChainedIgnoreOwnMap(doc: Document, c: Category, ref: string, m: map<string, Json>)
    requires Chained(c) && c != Responses
    requires doc.components.Some?
    ensures ComponentGetter(Document(doc.paths, Some(doc.components.value[c := m])), c, ref) ==
            ComponentGetter(doc, c, ref)
  {
    var doc' := Document(doc.paths, Some(doc.components.value[c := m]));
    assert ComponentMap(doc', Responses) == ComponentMap(doc, Responses);
  }

  /**
   * `handleComponentObject`: route on the third `/`-piece of `ref` and hand
   * the whole `ref` to that category's getter; any other piece, or none,
   * gives `undefined` (the `switch` has no default).
   */
  function HandleComponentObject(doc: Document, ref: string): (r: Answer)
    ensures forall c :: Segment(ref, 2) == Some(CategoryName(c)) ==> r == ComponentGetter(doc, c, ref)
    ensures (forall c :: Segment(ref, 2) != Some(CategoryName(c))) ==> r == Undefined
  {
    CategoryNameInjective();
    match Segment(ref, 2)
    case None => Undefined
    case Some(kind) =>
      match ParseCategory(kind)
      case None => Undefined
      case Some(c) => ComponentGetter(doc, c, ref)
  }

  /** `#/components/<category>/<name>`: the pointer a document uses for a component. */
  function ComponentPointer(c: Category, name: string): string
  {
    "#" + [Slash] + "components" + [Slash] + CategoryName(c) + [Slash] + name
  }

  /** A component pointer splits into `#`, `components`, the category and the pieces of the name. */
  lemma PointerPieces(c: Category, name: string)
    ensures Split(ComponentPointer(c, name), Slash) ==
            ["#", "components", CategoryName(c)] + Split(name, Slash)
  {
    var cat := CategoryName(c);
    CategoryNameHasNoSlash(c);
    var tail := cat + [Slash] + name;
    var mid := "components" + [Slash] + tail;
    Regroup("#", "components", cat, name, Slash);
    SplitLeading("#", mid, Slash);
    SplitLeading("components", tail, Slash);
    SplitLeading(cat, name, Slash);
    ThreeInFront("#", "components", cat, Split(name, Slash));
  }

  /** No category name contains a `/`. */
  lemma CategoryNameHasNoSlash(c: Category)
    ensures Slash !in CategoryName(c)
  {
    match c
    case _ => {}
  }

  /** For a name without `/`, the pointer's third piece is the category and its last piece the name. */
  lemma PointerOfName(c: Category, name: string)
    requires Slash !in name
    ensures Segment(ComponentPointer(c, name), 2) == Some(CategoryName(c))
    ensures LastSegment(ComponentPointer(c, name)) == name
  {
    PointerPieces(c, name);
    SplitPlain(name, Slash);
  }

  /**
   * Routing is by the category piece alone: a component pointer reaches its
   * category's getter, which is asked for the full pointer, not the name.
   */
  lemma HandleRoutesPointer(doc: Document, c: Category, name: string)
    ensures HandleComponentObject(doc, ComponentPointer(c, name)) ==
            ComponentGetter(doc, c, ComponentPointer(c, name))
  {
    PointerPieces(c, name);
    assert Split(ComponentPointer(c, name), Slash)[2] == CategoryName(c);
  }

  /**
   * The resolver as evidently intended: route on the third piece like
   * `handleComponentObject`, but look up the last piece, the key every
   * later `$ref` hop uses.
   */
  function ResolvePointer(doc: Document, ref: string): (r: Answer)
    ensures forall c :: Segment(ref, 2) == Some(CategoryName(c)) ==>
              r == ComponentGetter(doc, c, LastSegment(ref))
    ensures (forall c :: Segment(ref, 2) != Some(CategoryName(c))) ==> r == Undefined
  {
    CategoryNameInjective();
    match Segment(ref, 2)
    case None => Undefined
    case Some(kind) =>
      match ParseCategory(kind)
      case None => Undefined
      case Some(c) => ComponentGetter(doc, c, LastSegment(ref))
  }

  /**
   * The corrected resolver asks the category's getter for the component's
   * own name, the same key a `$ref` to that component is followed by.
   */
  lemma ResolvePointerUsesName(doc: Document, c: Category, name: string)
    requires Slash !in name
    ensures ResolvePointer(doc, ComponentPointer(c, name)) == ComponentGetter(doc, c, name)
  {
    PointerOfName(c, name);
  }

  /**
   * The discrepancy for a single-lookup category: when the map holds the
   * name but not the full pointer as a key, `handleComponentObject` gives
   * `undefined` where the corrected resolver finds the component.
   */
  lemma {:induction false} FullPointerMissesDirect(doc: Document, c: Category, name: string)
    requires !Chained(c) && Slash !in name
    requires ComponentMap(doc, c).Some?
    requires name in ComponentMap(doc, c).value
    requires ComponentPointer(c, name) !in ComponentMap(doc, c).value
    ensures HandleComponentObject(doc, ComponentPointer(c, name)) == Undefined
    ensures ResolvePointer(doc, ComponentPointer(c, name)) == Found(ComponentMap(doc, c).value[name])
  {
    HandleRoutesPointer(doc, c, name);
    ResolvePointerUsesName(doc, c, name);
    assert ReturnsStoredEntry(doc, c, ComponentPointer(c, name), ComponentGetter(doc, c, ComponentPointer(c, name)));
    assert ReturnsStoredEntry(doc, c, name, ComponentGetter(doc, c, name));
  }

  /**
   * The discrepancy for a chained category: when `components.responses`
   * holds the name but not the full pointer, `handleComponentObject` throws
   * reading `$ref` of `undefined` where the corrected resolver answers as
   * the name's chain does.
   */
  lemma {:induction false} FullPointerMissesChained(doc: Document, c: Category, name: string)
    requires Chained(c) && Slash !in name
    requires ComponentMap(doc, Responses).Some?
    requires name in ComponentMap(doc, Responses).value
    requires ComponentPointer(c, name) !in ComponentMap(doc, Responses).value
    ensures HandleComponentObject(doc, ComponentPointer(c, name)) == Failed(Thrown(ReadOfNullish("$ref")))
    ensures ResolvePointer(doc, ComponentPointer(c, name)) ==
            Chase(Steps(ComponentMap(doc, Responses).value), name, {})
  {
    HandleRoutesPointer(doc, c, name);
    ResolvePointerUsesName(doc, c, name);
    assert ComponentGetter(doc, c, ComponentPointer(c, name)) == GetResponseObject(doc, ComponentPointer(c, name));
    assert ComponentGetter(doc, c, name) == GetResponseObject(doc, name);
  }

  /** `#/components/schemas/Pet` and `Pet` are different keys. */
  lemma PetKeys()
    ensures ComponentPointer(Schemas, "Pet") != "Pet"
  {
    assert |ComponentPointer(Schemas, "Pet")| != |"Pet"|;
  }

  /**
   * The discrepancy on a document with one schema `Pet`:
   * `handleComponentObject("#/components/schemas/Pet")` gives `undefined`,
   * the corrected resolver finds the schema.
   */
  lemma FullPointerMissesSchema(pet: Json)
    ensures var doc := Document(None, Some(map[Schemas := map["Pet" := pet]]));
            && HandleComponentObject(doc, ComponentPointer(Schemas, "Pet")) == Undefined
            && ResolvePointer(doc, ComponentPointer(Schemas, "Pet")) == Found(pet)
  {
    var doc := Document(None, Some(map[Schemas := map["Pet" := pet]]));
    PetKeys();
    assert Slash !in "Pet";
    FullPointerMissesDirect(doc, Schemas, "Pet");
  }

  /** A step table whose one key refers to itself, by a pointer ending in that key. */
  lemma {:induction false} SelfReferenceStep(c: Category, name: string)
    requires Slash !in name
    ensures var loop := Obj(Record([("$ref", Str(ComponentPointer(c, name)))]));
            Steps(map[name := loop])[name] == Follow(name)
  {
    var loop := Obj(Record([("$ref", Str(ComponentPointer(c, name)))]));
    PointerOfName(c, name);
    assert Get(loop.fields, "$ref") == Some(Str(ComponentPointer(c, name)));
    assert |ComponentPointer(c, name)| > 0;
    assert HopOf(loop) == Follow(name);
  }

  /**
   * The missing cycle guard, on an entry whose `$ref` points back at itself
   * (`Loop: {$ref: "#/components/responses/Loop"}`): the unguarded getter
   * recurses without end, the guarded one reports the cycle.
   */
  lemma {:induction false} SelfReferenceLoops(name: string, fuel: nat)
    requires Slash !in name
    ensures var loop := Obj(Record([("$ref", Str(ComponentPointer(Responses, name)))]));
            var g := Steps(map[name := loop]);
            && SourceChase(g, name, fuel) == None
            && Chase(g, name, {}) == Failed(CircularReference(name))
  {
    var loop := Obj(Record([("$ref", Str(ComponentPointer(Responses, name)))]));
    var g := Steps(map[name := loop]);
    SelfReferenceStep(Responses, name);
    assert Walk(g, name, 0) == Some(name);
    assert Walk(g, name, 1) == Some(name);
    CycleDiverges(g, name, 1, fuel);
    assert Chase(g, name, {}) == Chase(g, name, {name});
  }
}
