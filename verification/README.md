# generating-tests-from-openapi: the `$ref` resolver and the menu decisions, in Dafny

This project models the core of a command-line tool that reads an OpenAPI 3.1
document, fills pools of sample values for the tokens it extracts, and gates
test-case generation on those pools. The tool is written in TypeScript, plus a
small Go entry point.

The main subject is the component resolver of the `OpenApi` provider:

- `getEndpoints` lists `Object.keys(spec.paths)`.
- `handleComponentObject` splits a `$ref` on `/` and dispatches on the third
  piece to one of ten per-category getters.
- The schemas, examples, headers, links and pathItems getters do one lookup.
- The responses, parameters, requestBodies, securitySchemes and callbacks
  getters follow `$ref` chains by the last `/`-piece of each `$ref`. Four of
  the five read `components.responses` rather than their own map, and the
  model keeps that fault. The code has no cycle guard and recurses forever on
  a cyclic chain. The model's getters add one (`Components.Chase`), so they
  report the cycle instead. The code's unguarded recursion is modelled
  separately (`Components.SourceChase`). Lemmas show the guarded getters give
  the same answer on every chain where the unguarded one returns.

Around the resolver sit the pure decisions of the menu commands:

- `saveSpec` maps each token to a record holding the token and an empty pool.
- `generateRandomData` resets and refills every pool from a generator that
  may throw.
- `generateTests` proceeds only when no pool is empty.
- `chooseSpec` uses a 1-based menu, `isValidSpec` checks the choice, and
  `selectRandomToken` picks an array element at random.
- `HTTP_AVAILABLE_METHODS` is a closed set of method keys.
- The Go `main` loop lists the methods of each path item.

Files, one module each:

| file | module | what it holds |
|---|---|---|
| wrappers.dfy | Wrappers | `Option` and `Result` |
| records.dfy | Records | JavaScript objects: string keys in insertion order, assignment |
| js_values.dfy | JsValues | JSON values, truthiness, numbers typed by the user (`NaN` included) |
| pointer.dfy | Pointer | `split('/')`, `join`, `pop()` and the `[i]` piece of a split |
| components.dfy | Components | the ten categories, the document, one `$ref` step, the unguarded chain (`SourceChase`) and the guarded one (`Chase`) |
| open_api.dfy | OpenApi | `getEndpoints`, the ten getters, `handleComponentObject`, the corrected resolver |
| constants.dfy | Constants | `HTTP_AVAILABLE_METHODS` |
| go_main.dfy | GoMain | the per-path method listing of `cmd/main.go` |
| utils.dfy | Utils | `chooseSpec`, `isValidSpec`, `selectRandomToken` |
| menu.dfy | Menu | `saveSpec`'s token map, the pool fill loop, the `generateRandomData` and `generateTests` decisions |

Several things are modelled as abstractions rather than copied:

- The unguarded recursion is modelled with a call budget (`fuel`).
  `SourceChase` returns `None` when the budget runs out, so "`None` for every
  budget" means the source recurses forever. In JavaScript that ends in a
  stack-overflow `RangeError`.
- `JSONSchemaFaker.generate` is a parameter `faker: (schema, n) -> Option<Json>`.
  It gives the value of the n-th call of the command, or `None` when that
  call throws.
- `Math.random()` is a parameter `random` in [0, 1).
- The directory listing, the typed input and the `tokens.json` files are
  parameters: a sequence of spec names, a `Number`, and a map from spec name
  to token record.

After a generator failure nothing is written: the `throw` at
src/providers/menu.ts:52-54 comes before the write at line 56 (see
`Menu.GenerateRandomData`).

## Model

| member | source | states |
|---|---|---|
| OpenApi.GetEndpoints | src/providers/open-api.ts:22-25 | Throws (`Object.keys` of `undefined`) exactly when the document has no `paths`. Otherwise it returns the path keys in insertion order, one per entry, each key present exactly once when the object is well formed, and a key is listed iff a lookup of it finds an entry. |
| OpenApi.EndpointsFollowDeclarationOrder | src/providers/open-api.ts:22-25 | Adding a new path appends it to the endpoint list. Re-assigning an existing path leaves the list unchanged. Assignment never creates a second entry under the same key. |
| OpenApi.HandleComponentObject | src/providers/open-api.ts:40-62 | For every category whose name equals the third `/`-piece of `ref`, the answer is that category's getter applied to the whole `ref`. When no category matches, including when there is no third piece, the answer is `undefined`. |
| OpenApi.HandleRoutesPointer | src/providers/open-api.ts:40-61 | A pointer `#/components/<category>/<name>` reaches its own category's getter. That getter is given the full pointer as the key. |
| Components.ParseCategory | src/providers/open-api.ts:41-61 | The `switch` labels: a recognised string is exactly one category's field name, and an unrecognised one is no category's name. |
| Components.CategoryNameRoundTrip | src/providers/open-api.ts:41-61 | Each of the ten labels selects its own category. |
| OpenApi.GetSchemaObject | src/providers/open-api.ts:65-67 | Throws exactly when the components or the schemas map are absent. Otherwise it returns the stored entry verbatim, even when that entry is itself a `$ref`, or `undefined` for a missing key. |
| OpenApi.GetExampleObject | src/providers/open-api.ts:86-88 | Same as the schemas getter, over the examples map. |
| OpenApi.GetHeadersObject | src/providers/open-api.ts:98-100 | Same as the schemas getter, over the headers map. |
| OpenApi.GetLinksObject | src/providers/open-api.ts:110-112 | Same as the schemas getter, over the links map. |
| OpenApi.GetPathItemsObject | src/providers/open-api.ts:122-124 | Same as the schemas getter, over the pathItems map. |
| OpenApi.GetResponseObject | src/providers/open-api.ts:69-76 | Never `undefined`. Throws when the components or the responses map are absent, and throws reading `$ref` when the first key is missing. A found entry is stored in `components.responses` and carries no `$ref` that would be followed. Whenever the unguarded recursion over `components.responses` returns, the answer is the one it returns (`OpenApi.ChainedGetterFollowsSource`). The answer is `CircularReference` exactly when that recursion never returns (`OpenApi.ChainedGetterCircularIffSourceDiverges`). |
| OpenApi.GetParameterObject | src/providers/open-api.ts:78-84 | The same guarantees as the responses getter, stated over `components.responses`, not the parameters map. Whenever the unguarded recursion over `components.responses` returns, the answer is the one it returns (`OpenApi.ChainedGetterFollowsSource`). The answer is `CircularReference` exactly when that recursion never returns (`OpenApi.ChainedGetterCircularIffSourceDiverges`). |
| OpenApi.GetRequestBodiesObject | src/providers/open-api.ts:90-96 | The same guarantees as the responses getter, over `components.responses`. Whenever the unguarded recursion over `components.responses` returns, the answer is the one it returns (`OpenApi.ChainedGetterFollowsSource`). The answer is `CircularReference` exactly when that recursion never returns (`OpenApi.ChainedGetterCircularIffSourceDiverges`). |
| OpenApi.GetSecuritySchemesObject | src/providers/open-api.ts:102-108 | The same guarantees as the responses getter, over `components.responses`. Whenever the unguarded recursion over `components.responses` returns, the answer is the one it returns (`OpenApi.ChainedGetterFollowsSource`). The answer is `CircularReference` exactly when that recursion never returns (`OpenApi.ChainedGetterCircularIffSourceDiverges`). |
| OpenApi.GetCallbacksObject | src/providers/open-api.ts:114-120 | The same guarantees as the responses getter, over `components.responses`. Whenever the unguarded recursion over `components.responses` returns, the answer is the one it returns (`OpenApi.ChainedGetterFollowsSource`). The answer is `CircularReference` exactly when that recursion never returns (`OpenApi.ChainedGetterCircularIffSourceDiverges`). |
| OpenApi.ComponentGetter | src/providers/open-api.ts:40-61 | For a single-lookup category, the getter returns its own map's stored entry. For any of the five chained categories, it resolves the key in `components.responses`, whatever the category's own map holds. Whenever the unguarded recursion over `components.responses` returns, the answer is the one it returns (`OpenApi.ChainedGetterFollowsSource`). The answer is `CircularReference` exactly when that recursion never returns (`OpenApi.ChainedGetterCircularIffSourceDiverges`). |
| OpenApi.ChainedGetterFollowsSource | src/providers/open-api.ts:69-120 | For every chained category, whenever the unguarded recursion over `components.responses` returns, with any call budget, the getter gives the same answer. |
| OpenApi.ChainedGetterCircularIffSourceDiverges | src/providers/open-api.ts:69-120 | For every chained category, the getter reports `CircularReference` exactly when the unguarded recursion never returns. On every other chain, one more call than there are keys is enough for the unguarded recursion to return the getter's answer. |
| OpenApi.ChainedIgnoreOwnMap | src/providers/open-api.ts:78-120 | Replacing the parameters, requestBodies, securitySchemes or callbacks map never changes what that category's getter answers. |
| Components.HopCases | src/providers/open-api.ts:71-75 | One step of a chained getter. A non-empty string `$ref` is followed by its last `/`-piece. `null`, or a truthy `$ref` that is not a string (it has no `split`), throws. Anything else is the answer, including a missing, empty or falsy `$ref`. |
| Components.SourceChase | src/providers/open-api.ts:69-76 | The getter as written, one unit of call budget per call: `None` means the recursion never returned within the budget. When it returns, it never answers `undefined` or reports a cycle. A found entry is one of the map's non-reference entries. A missing key throws reading `$ref`. |
| Components.Chase | src/providers/open-api.ts:69-76 | The guarded chain always terminates and never answers `undefined`. A missing key throws reading `$ref`. A found entry is one of the map's non-reference entries. |
| Components.ChaseAgreesWithSource | src/providers/open-api.ts:69-74 | Whenever the unguarded recursion returns, with any call budget, the guarded chain returns the same answer. |
| Components.CircularIffSourceDiverges | src/providers/open-api.ts:69-74 | The guard reports a cycle exactly on the chains the unguarded recursion never leaves. Otherwise, one more call than there are keys is enough for the unguarded recursion to return the guarded answer. |
| Components.CycleDiverges | src/providers/open-api.ts:69-74 | A key whose `$ref` chain comes back to itself makes the unguarded recursion run out of every call budget. |
| Components.SourceFuelMonotone | src/providers/open-api.ts:69-74 | Once the unguarded recursion has returned, a larger call budget gives the same answer. |
| OpenApi.SelfReferenceLoops | src/providers/open-api.ts:69-74 | On an entry whose `$ref` is `#/components/responses/<itself>`, the unguarded recursion never returns, and the guarded one reports `CircularReference`. |
| OpenApi.ResolvePointer | src/providers/open-api.ts:40-61 | The corrected resolver routes on the third piece as `handleComponentObject` does, but asks the getter for the last piece of the pointer. |
| OpenApi.ResolvePointerUsesName | src/providers/open-api.ts:40-61 | For `#/components/<category>/<name>`, the corrected resolver asks for `<name>`, the key that later `$ref` hops use. |
| OpenApi.FullPointerMissesDirect | src/providers/open-api.ts:40-67 | For a single-lookup category whose map holds `<name>` but not the full pointer, `handleComponentObject` gives `undefined` where the corrected resolver finds the entry. |
| OpenApi.FullPointerMissesChained | src/providers/open-api.ts:40-76 | For a chained category whose responses map holds `<name>` but not the full pointer, `handleComponentObject` throws where the corrected resolver answers as the chain from `<name>` does. |
| OpenApi.FullPointerMissesSchema | src/providers/open-api.ts:42-43 | With one schema `Pet`, `handleComponentObject("#/components/schemas/Pet")` gives `undefined`, and the corrected resolver finds `Pet`. |
| Pointer.JoinSplit | src/providers/open-api.ts:40 | `split('/')` loses nothing: joining the pieces with the separator gives back the string. |
| Pointer.SplitJoin | src/providers/open-api.ts:40 | Joining separator-free pieces and splitting again gives back the same pieces. |
| Pointer.SplitConcat | src/providers/open-api.ts:40 | Splitting `a + "/" + b` gives the pieces of `a` followed by the pieces of `b`. |
| Pointer.Segment | src/providers/open-api.ts:40 | `ref.split('/')[i]` exists exactly when `ref` has at least `i` separators, and it contains no separator. For a `ref` made of separator-free pieces, it is exactly the i-th piece (`Pointer.SegmentOfJoin`). |
| Pointer.SegmentOfJoin | src/providers/open-api.ts:40 | Of a string joined from separator-free pieces, `split('/')[i]` is exactly the i-th piece. |
| Pointer.LastSegment | src/providers/open-api.ts:73 | `pop()` of a split contains no separator. |
| Pointer.LastSegmentIsSuffix | src/providers/open-api.ts:73 | `pop()` of a split is a suffix of the string. The character before it is a separator, unless the suffix is the whole string. |
| Menu.MapTokens | src/providers/menu.ts:16-24 | The mapped record has the same keys as the token map, in the same order, and no key twice. Each entry holds the original token unchanged with an empty pool. A lookup of any key finds the mapped token. |
| Menu.MappedAlike | src/providers/menu.ts:16-24 | A record that pairs each token, in order, with an empty pool has the token map's keys and lookups. |
| Menu.PoolSize | src/providers/menu.ts:41 | The loop keeps pushing at pool length `n` exactly when `n` is below the size, so `NaN` and non-positive quantities give 0 and a positive one is rounded up. |
| Menu.PoolSizeOfIntegers | src/providers/menu.ts:41-46 | A non-negative integer quantity is met exactly. `NaN` and quantities at most 0 leave the pool empty. |
| Menu.FillPool | src/providers/menu.ts:40-46 | The pool is refilled from empty. On success it holds exactly `PoolSize` values, and the j-th value is the generator's value for this token's schema on the matching call. It fails exactly when one of those calls throws, and then reports the first call that threw. |
| Menu.FillPools | src/providers/menu.ts:38-50 | On success the keys are unchanged, each token is unchanged, every pool has exactly `PoolSize` values, and every value came from that same token's schema. The fill succeeds iff every token's calls succeed. A failure names a token whose call threw. After success the pools are all non-empty iff the size is positive or there are no tokens. |
| Menu.GenerateRandomData | src/providers/menu.ts:29-56 | An invalid choice does nothing. A missing tokens file is reported exactly when the chosen spec is valid but has no file. Unless the run ends in `Saved`, the files are left unchanged, so a generation failure writes nothing. `Saved` changes only the chosen spec's file, keeping its keys and tokens and giving every pool `PoolSize` values. Each saved value is the generator's value for its own token's schema, at its call number in order. For a valid choice with a tokens file, it saves iff every generator call succeeds. |
| Menu.EmptyPoolNames | src/providers/menu.ts:70-76 | The names whose pool is empty, in key order: a name is listed iff its pool is empty, and there are no more names than tokens. |
| Menu.CheckPools | src/providers/menu.ts:70-76 | Testing is allowed iff every pool is non-empty, iff no token was reported. The reported names are `Menu.EmptyPoolNames`: each empty-pool token once, in key order, and nothing else. |
| Menu.GenerateTestsGate | src/providers/menu.ts:61-81 | Generation proceeds exactly when the chosen spec is valid, its tokens file exists, and every pool is non-empty. When it proceeds, it uses that file's pools. A missing tokens file is its own outcome, reached exactly when the spec is valid but has no file. A blocked run reports exactly the tokens whose pool is empty, in key order, and at least one. |
| Utils.MenuLines | src/providers/utils.ts:26-28 | Each spec is printed with its 1-based position, in order; `Utils.ChooseSpecInvertsMenu` shows that typing that number selects it. |
| Utils.ChooseSpec | src/providers/utils.ts:29-30 | A spec is chosen iff the typed number is an integer from 1 to the number of specs, and it is the spec at that number minus one. Anything else, `NaN` included, gives `undefined`. |
| Utils.ChooseSpecInvertsMenu | src/providers/utils.ts:26-30 | Typing the number printed next to a spec selects that spec. Any number that selects a spec is one of the printed numbers. |
| Utils.IsValidSpec | src/providers/utils.ts:47-54 | Rejects exactly `undefined` and the empty string. |
| Utils.ChosenSpecIsValid | src/providers/utils.ts:23-31 | With non-empty spec names, a choice passes validation iff it is one of the printed menu numbers. |
| Utils.SelectRandomToken | src/providers/utils.ts:42-45 | For a draw in [0, 1), an empty array gives `undefined` and a non-empty one gives one of its elements. |
| Utils.EveryTokenCanBePicked | src/providers/utils.ts:42-45 | Every element has a draw that picks it: the draw `i / n` selects the i-th of n. |
| Constants.IsAvailableMethod | src/constants.ts:1-10 | A key is available iff it is one of the eight method names, iff it is present in the constant. The stored `true` adds nothing. |
| Constants.AvailableMethodsExact | src/constants.ts:1-10 | The keys are exactly get, put, post, delete, options, head, patch and trace, and each maps to `true`. |
| Constants.PathItemFieldsAreNotMethods | src/constants.ts:1-10 | `$ref`, `summary`, `description`, `servers`, `parameters` and the upper-case `GET` are not available methods. |
| GoMain.MethodsOf | cmd/main.go:38-50 | A method is listed iff the path item defines it and it is GET, POST, PUT or DELETE, so PATCH, HEAD, OPTIONS and TRACE never appear. The list is in that order, has no repeats, and has at most four entries. |
| GoMain.MethodsAreFilteredListing | cmd/main.go:38-50 | The list equals GET, POST, PUT, DELETE filtered down to the defined operations, with the order kept. |
| GoMain.DefinedFromShape | cmd/main.go:38-50 | The filtered listing from position `i` holds exactly the defined methods ranked `i` to 3, in strictly increasing rank, with at most `4 - i` of them. |
| GoMain.LabelsAreDistinct | cmd/main.go:38-50 | The appended labels `GET`, `POST`, `PUT` and `DELETE` name different methods, so the printed list has no repeated label. |
| GoMain.ListMethods | cmd/main.go:34-55 | A document without `paths` panics at the `range` over the nil `swagger.Paths`, and only such a document does. Otherwise the loop gives one method list per path, in the order the paths are visited, each the path item's `MethodsOf`. |

## Left out

- File, console and readline I/O (`writeFile`, `getMapedTokens`, `listAvailableSpecs`, `fileExists`, `mkdirSync`, `console.*`, `readOption`) are left out. Their results are parameters, and the writes are the returned file map.
- The message of a failed generation is left out. The command drops the caught error at src/providers/menu.ts:48 and throws one fixed message at lines 52-54. The token and call number in `GenerationFailed` are the model's own detail, not something the command reports.
- `executeTests` is left out. It is concurrent HTTP dispatch with a shared results array.
- `SwaggerParser.parse`, `OpenApi.init`, the `Swagger` provider, the Go `GetSpec`/`ParseSpec`, and the HTTP fetch and unmarshalling in `cmd/main.go` are left out. They are network and parser wrappers. The document arrives already parsed.
- `getTitle`, `extractTokens`, `getSpec` and the test-case generator that `generateTests` calls are not part of this model, because their source is not available. The model ends `generateTests` at its gate.
- `src/main.ts` is left out. It is only a bootstrap call.
- The JavaScript prototype is left out. A lookup of a key such as `constructor` or `__proto__` finds only the document's own entries.
- `Object.keys` puts integer-like keys first, in numeric order. The model keeps pure insertion order, which matches path keys, since they start with `/`. Token names are parameter names and may be integer-like, such as `2`. For those, `Object.keys` at src/providers/menu.ts:39 lists them first, while `Menu.MapTokens` and `Menu.FillPools` keep the token file's order.
- OpenApi.GetResponseObject: on a cyclic `$ref` chain, the getter answers `Failed(CircularReference(k))`. The code recurses at src/providers/open-api.ts:72-73 until a stack-overflow `RangeError`. `OpenApi.ChainedGetterFollowsSource` and `OpenApi.ChainedGetterCircularIffSourceDiverges` show this is the only difference. `Components.SourceChase` models the code as written.
- OpenApi.GetParameterObject: the same cycle guard as `OpenApi.GetResponseObject`, which it calls.
- OpenApi.GetRequestBodiesObject: the same cycle guard as `OpenApi.GetResponseObject`, which it calls.
- OpenApi.GetSecuritySchemesObject: the same cycle guard as `OpenApi.GetResponseObject`, which it calls.
- OpenApi.GetCallbacksObject: the same cycle guard as `OpenApi.GetResponseObject`, which it calls.
- OpenApi.ComponentGetter: for the five chained categories, the same cycle guard as `OpenApi.GetResponseObject`.
- Components.SourceChase: the stack-overflow `RangeError` that ends unbounded recursion is modelled as non-termination (`None` for every call budget), not as a thrown error.
- Components.HopOf: a thrown `TypeError` is modelled by the property it reads or the method it misses, not by its message text.
- Menu.PoolSize: `+Infinity` and `-Infinity` quantities are left out. The typed quantity is a finite number or `NaN`. `+"Infinity"` would make the JavaScript loop run forever.
- Utils.SelectRandomToken: `Math.random()` is a real in [0, 1), and floating-point rounding of `random * length` is not modelled.
- Utils.ChooseSpec: the `Number` type leaves out `+Infinity` and `-Infinity`. Both give `undefined` in JavaScript too.
- Menu.FillPools: the partial mutation of the in-memory record before a throw is not returned, because the command throws and never writes it.
- GoMain.ListMethods: Go map iteration order is unspecified, so the paths arrive as a sequence in whatever order they are visited. The `fmt.Println` output is the returned listing. A document without `paths` is an absent sequence, and the model answers `NilPathsPanic` for it, as the range at cmd/main.go:34 dereferences a nil `swagger.Paths`.
- GoMain.MethodsOf: the method list holds `Method` values. The upper-case strings the Go code appends are given by `GoMain.Label`.

## Findings

| source | as written | input that shows it | evidently intended | confidence | as-written member | corrected member |
|---|---|---|---|---|---|---|
| src/providers/open-api.ts:69-76 | The chained getters recurse on every truthy `$ref` with no record of the keys already visited. | `components.responses = { Loop: { $ref: "#/components/responses/Loop" } }`, then `getResponseObject("Loop")`. | Stop with a circular-reference error once a chain returns to a key it has left, as the TODO at line 69 asks. | high, not executed | Components.SourceChase, OpenApi.SelfReferenceLoops | Components.Chase, Components.ChaseAgreesWithSource |
| src/providers/open-api.ts:40-61 | `handleComponentObject` passes the full pointer `#/components/<category>/<name>` to the getter as the map key, while every later hop uses only the last piece. | `components.schemas = { Pet: {...} }`, then `handleComponentObject("#/components/schemas/Pet")`. This gives `undefined`, and a chained category throws instead. | Look up the last piece `<name>`, as the hops inside the chained getters do. | medium, not executed | OpenApi.HandleComponentObject, OpenApi.FullPointerMissesSchema | OpenApi.ResolvePointer, OpenApi.ResolvePointerUsesName |
