/**
 * The Components Object of an OpenAPI 3.1 document (section 4.8.7 of the
 * OpenAPI Specification 3.1.0) and the `$ref` chasing the resolver does over
 * one of its maps.
 */
module Components {
  import opened Wrappers
  import opened Records
  import opened JsValues
  import opened Pointer

  /** The ten fixed fields of a Components Object. */
  datatype Category =
    | Schemas | Responses | Parameters | Examples | RequestBodies
    | Headers | SecuritySchemes | Links | Callbacks | PathItems

  /** The field name of a category, as it appears in a document and in a pointer. */
  function CategoryName(c: Category): string
  {
    match c
    case Schemas => "schemas"
    case Responses => "responses"
    case Parameters => "parameters"
    case Examples => "examples"
    case RequestBodies => "requestBodies"
    case Headers => "headers"
    case SecuritySchemes => "securitySchemes"
    case Links => "links"
    case Callbacks => "callbacks"
    case PathItems => "pathItems"
  }

  /** The `switch` on a pointer segment: the category with that field name, if any. */
  function ParseCategory(s: string): (c: Option<Category>)
    ensures c.Some? ==> CategoryName(c.value) == s
    ensures c.None? ==> forall k :: CategoryName(k) != s
  {
    if s == "schemas" then Some(Schemas)
    else if s == "responses" then Some(Responses)
    else if s == "parameters" then Some(Parameters)
    else if s == "examples" then Some(Examples)
    else if s == "requestBodies" then Some(RequestBodies)
    else if s == "headers" then Some(Headers)
    else if s == "securitySchemes" then Some(SecuritySchemes)
    else if s == "links" then Some(Links)
    else if s == "callbacks" then Some(Callbacks)
    else if s == "pathItems" then Some(PathItems)
    else None
  }

  /** Parsing a category's own name gives that category back. */
  lemma CategoryNameRoundTrip(c: Category)
    ensures ParseCategory(CategoryName(c)) == Some(c)
  {
  }

  /** Different categories have different names. */
  lemma CategoryNameInjective()
    ensures forall a: Category, b: Category :: CategoryName(a) == CategoryName(b) ==> a == b
  {
  }

  /** What the resolver can see of a document: its paths and its components. */
  datatype Document = Document(
    paths: Option<Record<Json>>,
    components: Option<map<Category, map<string, Json>>>)

  /** `spec.components[c]`, or nothing when the components or that map are absent. */
  function ComponentMap(doc: Document, c: Category): Option<map<string, Json>>
  {
    if doc.components.Some? && c in doc.components.value then Some(doc.components.value[c])
    else None
  }

  /** The `TypeError`s the getters can raise. */
  datatype TypeError =
    | ReadOfNullish(property: string)   // reading a property of undefined or null
    | NotAFunction(name: string)        // calling a method the value does not have
    | NotAnObject                       // Object.keys of undefined

  /** The errors a lookup can end in. */
  datatype Fault =
    | Thrown(error: TypeError)
    | CircularReference(key: string)    // a `$ref` chain came back to a key it had left

  /** What a getter gives back: an entry, `undefined`, or a thrown error. */
  datatype Answer = Found(entry: Json) | Undefined | Failed(fault: Fault)

  /** What one lookup step makes of an entry. */
  datatype Hop = Done(entry: Json) | Follow(target: string) | Throw(error: TypeError)

  /**
   * One step of a chained getter: read `entry['$ref']`; if it is truthy, go
   * on to the last `/`-piece of it, otherwise the entry is the answer.
   */
  function HopOf(e: Json): (h: Hop)
    ensures h.Done? ==> h.entry == e
  {
    match e
    case Null => Throw(ReadOfNullish("$ref"))
    case Obj(fields) =>
      (match Get(fields, "$ref")
       case None => Done(e)
       case Some(ref) =>
         if !Truthy(ref) then Done(e)
         else if ref.Str? then Follow(LastSegment(ref.s))
         else Throw(NotAFunction("split")))
    case _ => Done(e)
  }

  /**
   * The three outcomes of a step: a non-empty string `$ref` is followed by
   * its last piece; `null`, or a truthy `$ref` that is not a string (it has
   * no `split`), throws; anything else, including an empty `$ref`, is the
   * answer.
   */
  lemma HopCases(e: Json)
    ensures HopOf(e).Follow? <==>
              e.Obj? && Get(e.fields, "$ref").Some? && Get(e.fields, "$ref").value.Str? &&
              Get(e.fields, "$ref").value.s != ""
    ensures HopOf(e).Follow? ==> HopOf(e).target == LastSegment(Get(e.fields, "$ref").value.s)
    ensures HopOf(e).Throw? <==>
              e.Null? || (e.Obj? && Get(e.fields, "$ref").Some? &&
                          Truthy(Get(e.fields, "$ref").value) && !Get(e.fields, "$ref").value.Str?)
  {
  }

  /** The entry carries a `$ref` the getters would follow. */
  predicate IsReference(e: Json)
  {
    HopOf(e).Follow?
  }

  /** The step each key of a component map leads to: the map as the getters see it. */
  function Steps(m: map<string, Json>): (g: map<string, Hop>)
    ensures g.Keys == m.Keys
    ensures forall k :: k in g ==> g[k] == HopOf(m[k])
  {
    map k | k in m :: HopOf(m[k])
  }

  /**
   * A chained getter as written: look `key` up, follow a truthy `$ref` by
   * its last piece, stop at an entry without one. Nothing guards against a
   * cycle, so the recursion is unbounded; `fuel` counts the calls the run is
   * allowed and `None` means it ran out.
   */
  function SourceChase(g: map<string, Hop>, key: string, fuel: nat): (r: Option<Answer>)
    ensures r.Some? ==> r.value != Undefined && !IsCircular(r.value)
    ensures r.Some? && r.value.Found? ==> Done(r.value.entry) in g.Values
    ensures fuel > 0 && key !in g ==> r == Some(Failed(Thrown(ReadOfNullish("$ref"))))
    decreases fuel
  {
    if fuel == 0 then None
    else if key !in g then Some(Failed(Thrown(ReadOfNullish("$ref"))))
    else
      match g[key]
      case Done(e) => Some(Found(e))
      case Throw(f) => Some(Failed(Thrown(f)))
      case Follow(t) => SourceChase(g, t, fuel - 1)
  }

  /**
   * A chained getter with a guard: `visited` holds the keys the chain has
   * already followed a `$ref` from; coming back to one of them stops with
   * `CircularReference` instead of recursing again.
   */
  function Chase(g: map<string, Hop>, key: string, visited: set<string>): (r: Answer)
    requires visited <= g.Keys
    ensures r != Undefined
    ensures r.Found? ==> Done(r.entry) in g.Values
    ensures key !in g ==> r == Failed(Thrown(ReadOfNullish("$ref")))
    decreases |g.Keys - visited|
  {
    if key !in g then Failed(Thrown(ReadOfNullish("$ref")))
    else
      match g[key]
      case Done(e) => Found(e)
      case Throw(f) => Failed(Thrown(f))
      case Follow(t) =>
        if key in visited then Failed(CircularReference(key))
        else
          assert g.Keys - (visited + {key}) < g.Keys - visited;
          Chase(g, t, visited + {key})
  }

  /** The guarded chain stopped at a cycle. */
  predicate IsCircular(a: Answer)
  {
    a.Failed? && a.fault.CircularReference?
  }

  /** The key reached from `key` after `n` followed `$ref`s, if the chain gets that far. */
  function Walk(g: map<string, Hop>, key: string, n: nat): Option<string>
    decreases n
  {
    if n == 0 then Some(key)
    else if key in g && g[key].Follow? then Walk(g, g[key].target, n - 1)
    else None
  }

  /** `to` lies one or more followed `$ref`s after `from`. */
  ghost predicate Reaches(g: map<string, Hop>, from: string, to: string)
  {
    exists n: nat :: 1 <= n && Walk(g, from, n) == Some(to)
  }

  /** Walks compose. */
  lemma {:induction false} WalkAppend(g: map<string, Hop>, a: string, i: nat, b: string, j: nat, c: string)
    requires Walk(g, a, i) == Some(b)
    requires Walk(g, b, j) == Some(c)
    ensures Walk(g, a, i + j) == Some(c)
    decreases i
  {
    if i > 0 {
      WalkAppend(g, g[a].target, i - 1, b, j, c);
    }
  }

  /** Running the source getter along a walk of `j` steps uses up `j` calls. */
  lemma {:induction false} SourceChaseShift(g: map<string, Hop>, a: string, j: nat, b: string, fuel: nat)
    requires Walk(g, a, j) == Some(b)
    ensures fuel < j ==> SourceChase(g, a, fuel) == None
    ensures j <= fuel ==> SourceChase(g, a, fuel) == SourceChase(g, b, fuel - j)
    decreases j
  {
    if j > 0 && fuel > 0 {
      SourceChaseShift(g, g[a].target, j - 1, b, fuel - 1);
    }
  }

  /** A key that leads back to itself makes the source getter recurse forever. */
  lemma {:induction false} CycleDiverges(g: map<string, Hop>, a: string, p: nat, fuel: nat)
    requires 1 <= p
    requires Walk(g, a, p) == Some(a)
    ensures SourceChase(g, a, fuel) == None
    decreases fuel
  {
    SourceChaseShift(g, a, p, a, fuel);
    if p <= fuel {
      CycleDiverges(g, a, p, fuel - p);
    }
  }

  /**
   * Whenever the guard reports a cycle, the unguarded getter never returns:
   * the chain really loops. `visited` holds keys the chain came through.
   */
  lemma {:induction false} CircularMeansDiverges(g: map<string, Hop>, key: string, visited: set<string>, fuel: nat)
    requires visited <= g.Keys
    requires forall v :: v in visited ==> Reaches(g, v, key)
    requires IsCircular(Chase(g, key, visited))
    ensures SourceChase(g, key, fuel) == None
    decreases |g.Keys - visited|
  {
    assert key in g && g[key].Follow?;
    var t := g[key].target;
    if key in visited {
      assert Reaches(g, key, key);
      var n: nat :| 1 <= n && Walk(g, key, n) == Some(key);
      CycleDiverges(g, key, n, fuel);
    } else {
      assert Walk(g, t, 0) == Some(t);
      assert Walk(g, key, 1) == Some(t);
      forall v | v in visited + {key}
        ensures Reaches(g, v, t)
      {
        if v != key {
          var n: nat :| 1 <= n && Walk(g, v, n) == Some(key);
          WalkAppend(g, v, n, key, 1, t);
        }
      }
      assert g.Keys - (visited + {key}) < g.Keys - visited;
      if fuel > 0 {
        CircularMeansDiverges(g, t, visited + {key}, fuel - 1);
      }
    }
  }

  /**
   * When the guard does not report a cycle, the unguarded getter returns the
   * same answer, given one call per key not yet visited plus one.
   */
  lemma {:induction false} AcyclicAgrees(g: map<string, Hop>, key: string, visited: set<string>, fuel: nat)
    requires visited <= g.Keys
    requires !IsCircular(Chase(g, key, visited))
    requires |g.Keys - visited| < fuel
    ensures SourceChase(g, key, fuel) == Some(Chase(g, key, visited))
    decreases |g.Keys - visited|
  {
    if key in g && g[key].Follow? {
      var t := g[key].target;
      assert key !in visited;
      assert g.Keys - (visited + {key}) == (g.Keys - visited) - {key};
      AcyclicAgrees(g, t, visited + {key}, fuel - 1);
    }
  }

  /** More calls never change an answer the source getter already gave. */
  lemma {:induction false} SourceFuelMonotone(g: map<string, Hop>, key: string, fuel: nat, more: nat)
    requires SourceChase(g, key, fuel).Some?
    requires fuel <= more
    ensures SourceChase(g, key, more) == SourceChase(g, key, fuel)
    decreases fuel
  {
    if key in g && g[key].Follow? {
      SourceFuelMonotone(g, g[key].target, fuel - 1, more - 1);
    }
  }

  /**
   * The guarded getter is a faithful replacement: whenever the unguarded one
   * returns (the chain is acyclic), both give the same answer.
   */
  lemma {:induction false} ChaseAgreesWithSource(g: map<string, Hop>, key: string, fuel: nat)
    requires SourceChase(g, key, fuel).Some?
    ensures Chase(g, key, {}) == SourceChase(g, key, fuel).value
  {
    if IsCircular(Chase(g, key, {})) {
      CircularMeansDiverges(g, key, {}, fuel);
      assert false;
    }
    var bound := |g.Keys| + 1;
    AcyclicAgrees(g, key, {}, bound);
    if fuel <= bound {
      SourceFuelMonotone(g, key, fuel, bound);
    } else {
      SourceFuelMonotone(g, key, bound, fuel);
    }
  }

  /**
   * The guard fires exactly on the chains the unguarded getter never leaves:
   * a reported cycle means no number of calls returns, and otherwise
   * `|g| + 1` calls return the guarded answer.
   */
  lemma {:induction false} CircularIffSourceDiverges(g: map<string, Hop>, key: string, fuel: nat)
    ensures IsCircular(Chase(g, key, {})) ==> SourceChase(g, key, fuel) == None
    ensures !IsCircular(Chase(g, key, {})) ==>
              SourceChase(g, key, |g.Keys| + 1) == Some(Chase(g, key, {}))
  {
    if IsCircular(Chase(g, key, {})) {
      CircularMeansDiverges(g, key, {}, fuel);
    } else {
      AcyclicAgrees(g, key, {}, |g.Keys| + 1);
    }
  }
}
