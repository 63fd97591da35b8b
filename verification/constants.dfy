/** `HTTP_AVAILABLE_METHODS`: the closed set of operation keys a Path Item may hold. */
module Constants {
  import opened Wrappers

  /** The eight HTTP methods of an OpenAPI Path Item (section 4.8.9 of the OpenAPI Specification 3.1.0). */
  datatype Method = Get | Put | Post | Delete | Options | Head | Patch | Trace

  /** The lower-case key of a method, as in a Path Item. */
  function MethodName(m: Method): string
  {
    match m
    case Get => "get"
    case Put => "put"
    case Post => "post"
    case Delete => "delete"
    case Options => "options"
    case Head => "head"
    case Patch => "patch"
    case Trace => "trace"
  }

  /** The method a Path Item key names, if any. */
  function ParseMethod(key: string): (m: Option<Method>)
    ensures m.Some? ==> MethodName(m.value) == key
    ensures m.None? ==> forall x :: MethodName(x) != key
  {
    if key == "get" then Some(Get)
    else if key == "put" then Some(Put)
    else if key == "post" then Some(Post)
    else if key == "delete" then Some(Delete)
    else if key == "options" then Some(Options)
    else if key == "head" then Some(Head)
    else if key == "patch" then Some(Patch)
    else if key == "trace" then Some(Trace)
    else None
  }

  /** The constant object: every method key mapped to `true`. A `const`, so nothing can change it. */
  const HttpAvailableMethods: map<string, bool> :=
    map["get" := true, "put" := true, "post" := true, "delete" := true,
        "options" := true, "head" := true, "patch" := true, "trace" := true]

  /**
   * Looking a key up in the constant (`HTTP_AVAILABLE_METHODS[key]`): true
   * exactly for the eight method names, so the stored value adds nothing to
   * key presence.
   */
  function IsAvailableMethod(key: string): (available: bool)
    ensures available <==> ParseMethod(key).Some?
    ensures available <==> key in HttpAvailableMethods
  {
    key in HttpAvailableMethods && HttpAvailableMethods[key]
  }

  /** The keys are exactly the method names, each mapped to `true`. */
  lemma AvailableMethodsExact()
    ensures forall m :: MethodName(m) in HttpAvailableMethods
    ensures forall k :: k in HttpAvailableMethods ==> HttpAvailableMethods[k] && ParseMethod(k).Some?
    ensures HttpAvailableMethods.Keys == set m: Method | true :: MethodName(m)
  {
    var names := set m: Method | true :: MethodName(m);
    forall k | k in HttpAvailableMethods ensures k in names {
      assert MethodName(ParseMethod(k).value) == k;
    }
  }

  /** The other fixed fields of a Path Item are not methods. */
  lemma PathItemFieldsAreNotMethods()
    ensures !IsAvailableMethod("$ref")
    ensures !IsAvailableMethod("summary")
    ensures !IsAvailableMethod("description")
    ensures !IsAvailableMethod("servers")
    ensures !IsAvailableMethod("parameters")
    ensures !IsAvailableMethod("GET")
  {
  }
}
