/**
 * The method listing of the Go entry point: for each path of a parsed
 * document, the operations it defines among GET, POST, PUT and DELETE,
 * checked in that fixed order.
 */
module GoMain {
  import opened Wrappers
  import opened Constants

  /** The operations of a path item whose pointer is not `nil`. */
  datatype PathItem = PathItem(operations: set<Method>)

  /** The four methods the loop looks for, in the order it looks. */
  const Listed: seq<Method> := [Get, Post, Put, Delete]

  /** Position of a method in `Listed`; 4 for the methods the loop never looks at. */
  function Rank(m: Method): nat
  {
    match m
    case Get => 0
    case Post => 1
    case Put => 2
    case Delete => 3
    case _ => 4
  }

  /** The upper-case label the loop appends for a method. */
  function Label(m: Method): string
  {
    match m
    case Get => "GET"
    case Post => "POST"
    case Put => "PUT"
    case Delete => "DELETE"
    case Options => "OPTIONS"
    case Head => "HEAD"
    case Patch => "PATCH"
    case Trace => "TRACE"
  }

  /** Different methods get different labels, so the printed slice names each operation once. */
  lemma LabelsAreDistinct()
    ensures forall a: Method, b: Method :: Label(a) == Label(b) ==> a == b
  {
  }

  /**
   * The `methods` slice built for one path item: an append per non-nil
   * operation among GET, POST, PUT and DELETE, in that order. Any other
   * operation the path item defines is left out.
   */
  function MethodsOf(item: PathItem): (methods: seq<Method>)
    ensures forall m :: m in methods <==> m in item.operations && Rank(m) < 4
    ensures Ordered(methods, 4)
  {
    ListingByPieces(item);
    DefinedFromShape(item, 0);
    assert Ascending(DefinedFrom(item, 0), 0);
    Piece(item, 0) + Piece(item, 1) + Piece(item, 2) + Piece(item, 3)
  }

  /**
   * Methods ranked below `bound`, in strictly increasing rank: so no
   * repeats, at most `bound` of them, and in the order of `Listed`.
   */
  predicate Ordered(ms: seq<Method>, bound: nat)
  {
    && |ms| <= bound
    && (forall i :: 0 <= i < |ms| ==> Rank(ms[i]) < bound)
    && (forall i, j :: 0 <= i < j < |ms| ==> Rank(ms[i]) < Rank(ms[j]))
  }

  /** One `if ... { methods = append(methods, ...) }`: the k-th listed method when defined, else nothing. */
  function Piece(item: PathItem, k: nat): seq<Method>
    requires k < 4
  {
    if Listed[k] in item.operations then [Listed[k]] else []
  }

  /**
   * The listed methods from position `i` on that the path item defines:
   * `Listed` filtered, order kept.
   */
  function DefinedFrom(item: PathItem, i: nat): seq<Method>
    requires i <= 4
    decreases 4 - i
  {
    if i == 4 then [] else Piece(item, i) + DefinedFrom(item, i + 1)
  }

  /** `Listed` is ranked by position, and each rank below 4 names one method. */
  lemma ListedRanks(i: nat)
    requires i < 4
    ensures Rank(Listed[i]) == i
    ensures forall m :: Rank(m) == i ==> m == Listed[i]
  {
  }

  /** Every method ranked from `lo` up to 3, in strictly increasing rank. */
  predicate Ascending(ms: seq<Method>, lo: nat)
  {
    && (forall k :: 0 <= k < |ms| ==> lo <= Rank(ms[k]) < 4)
    && (forall a, b :: 0 <= a < b < |ms| ==> Rank(ms[a]) < Rank(ms[b]))
  }

  /** A method of rank `i` in front of an ascending run ranked above `i` keeps it ascending. */
  lemma PrependAscending(x: Method, rest: seq<Method>, i: nat)
    requires Rank(x) == i < 4 && Ascending(rest, i + 1)
    ensures Ascending([x] + rest, i)
  {
    var d := [x] + rest;
    assert forall k :: 1 <= k < |d| ==> d[k] == rest[k - 1];
  }

  /**
   * The filtered listing from position `i`: exactly the defined methods
   * ranked from `i` up to 3, in strictly increasing rank.
   */
  lemma {:induction false} DefinedFromShape(item: PathItem, i: nat)
    requires i <= 4
    ensures |DefinedFrom(item, i)| <= 4 - i
    ensures forall m :: m in DefinedFrom(item, i) <==> m in item.operations && i <= Rank(m) < 4
    ensures Ascending(DefinedFrom(item, i), i)
    decreases 4 - i
  {
    if i < 4 {
      DefinedFromShape(item, i + 1);
      ListedRanks(i);
      var rest := DefinedFrom(item, i + 1);
      if Listed[i] in item.operations {
        assert DefinedFrom(item, i) == [Listed[i]] + rest;
        PrependAscending(Listed[i], rest, i);
      } else {
        assert DefinedFrom(item, i) == rest;
      }
    }
  }

  /**
   * The slice is GET, POST, PUT, DELETE filtered down to the defined
   * operations: a subsequence in that order, whatever else the path item
   * holds.
   */
  lemma MethodsAreFilteredListing(item: PathItem)
    ensures MethodsOf(item) == DefinedFrom(item, 0)
  {
    ListingByPieces(item);
  }

  /** `DefinedFrom` from position 0 unfolds into the four appends. */
  lemma ListingByPieces(item: PathItem)
    ensures DefinedFrom(item, 0) == Piece(item, 0) + Piece(item, 1) + Piece(item, 2) + Piece(item, 3)
  {
    assert DefinedFrom(item, 3) == Piece(item, 3);
    assert DefinedFrom(item, 2) == Piece(item, 2) + Piece(item, 3);
    assert DefinedFrom(item, 1) == Piece(item, 1) + (Piece(item, 2) + Piece(item, 3));
    assert DefinedFrom(item, 0) == Piece(item, 0) + (Piece(item, 1) + (Piece(item, 2) + Piece(item, 3)));
  }

  /**
   * How the loop ends. A document without `paths` leaves `swagger.Paths`
   * nil, and ranging over its `Paths` field panics before any path is
   * printed; otherwise every visited path is printed with its methods.
   */
  datatype Listing =
    | NilPathsPanic
    | Printed(entries: seq<(string, seq<Method>)>)

  /**
   * The whole loop: a panic when the document has no `paths`, else one
   * method list per path, in the order the paths are visited.
   */
  method ListMethods(paths: Option<seq<(string, PathItem)>>) returns (listing: Listing)
    ensures listing.NilPathsPanic? <==> paths.None?
    ensures listing.Printed? ==> |listing.entries| == |paths.value|
    ensures listing.Printed? ==>
              forall i :: 0 <= i < |paths.value| ==>
                listing.entries[i] == (paths.value[i].0, MethodsOf(paths.value[i].1))
  {
    if paths.None? {
      return NilPathsPanic;
    }
    var visited := paths.value;
    var printed: seq<(string, seq<Method>)> := [];
    var i := 0;
    while i < |visited|
      invariant 0 <= i <= |visited|
      invariant printed == seq(i, k requires 0 <= k < i => (visited[k].0, MethodsOf(visited[k].1)))
    {
      printed := printed + [(visited[i].0, MethodsOf(visited[i].1))];
      i := i + 1;
    }
    return Printed(printed);
  }
}
