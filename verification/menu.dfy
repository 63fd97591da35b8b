/**
 * The pure parts of the menu commands: building the token-pool record when a
 * spec is saved, filling the pools with generated values, and the check that
 * every pool holds a value before test cases are generated. Reading and
 * writing files, the console and the prompt are outside the model; the
 * files are a map from spec name to the contents of its `tokens.json`.
 */
module Menu {
  import opened Wrappers
  import opened Records
  import opened JsValues
  import opened Utils

  /** A fuzzable input as extracted from a spec. */
  datatype Token = Token(name: string, description: string, location: string, schema: Json)

  /** An entry of `tokens.json`: the token and its pool of sample values. */
  datatype MappedToken = MappedToken(token: Token, availableTokens: seq<Json>)

  /**
   * The sample-value generator (`JSONSchemaFaker.generate`): the value it
   * produces for a schema on its n-th call, counting from the start of the
   * command, or `None` when that call throws.
   */
  type Faker = (Json, nat) -> Option<Json>

  /**
   * The record `saveSpec` writes to `tokens.json`: one entry per extracted
   * token, under the same key and in the same order, holding the token
   * unchanged and an empty pool.
   */
  method MapTokens(tokens: Record<Token>) returns (mapped: Record<MappedToken>)
    requires Valid(tokens)
    ensures Valid(mapped)
    ensures Keys(mapped) == Keys(tokens)
    ensures forall i :: 0 <= i < |tokens.entries| ==> mapped.entries[i].1 == MappedToken(tokens.entries[i].1, [])
    ensures forall k :: Get(tokens, k).Some? ==> Get(mapped, k) == Some(MappedToken(Get(tokens, k).value, []))
  {
    var names := Keys(tokens);
    mapped := Record([]);
    var i := 0;
    while i < |names|
      invariant 0 <= i <= |names|
      invariant mapped.entries == EmptyPools(tokens.entries[..i])
    {
      GetAt(tokens, i);
      var token := Get(tokens, names[i]).value;
      NextKeyIsFresh(tokens, mapped, i);
      mapped := Put(mapped, names[i], MappedToken(token, []));
      EmptyPoolsSnoc(tokens.entries, i);
      i := i + 1;
    }
    assert tokens.entries[..i] == tokens.entries;
    MappedAlike(tokens, mapped);
  }

  /** Each token under its own name with an empty pool, in the same order. */
  function EmptyPools(es: seq<(string, Token)>): (mapped: seq<(string, MappedToken)>)
    ensures |mapped| == |es|
    ensures forall k :: 0 <= k < |es| ==> mapped[k] == (es[k].0, MappedToken(es[k].1, []))
  {
    seq(|es|, k requires 0 <= k < |es| => (es[k].0, MappedToken(es[k].1, [])))
  }

  /** One more token adds one more entry at the end. */
  lemma EmptyPoolsSnoc(es: seq<(string, Token)>, i: nat)
    requires i < |es|
    ensures EmptyPools(es[..i + 1]) == EmptyPools(es[..i]) + [(es[i].0, MappedToken(es[i].1, []))]
  {
    var a, b := EmptyPools(es[..i + 1]), EmptyPools(es[..i]) + [(es[i].0, MappedToken(es[i].1, []))];
    assert forall k :: 0 <= k < i ==> a[k] == b[k];
  }

  /** The i-th token name is not among the names already mapped from the first i. */
  lemma NextKeyIsFresh(tokens: Record<Token>, mapped: Record<MappedToken>, i: nat)
    requires Valid(tokens)
    requires i < |tokens.entries|
    requires mapped.entries == EmptyPools(tokens.entries[..i])
    ensures tokens.entries[i].0 !in Keys(mapped)
  {
    forall k | 0 <= k < i ensures Keys(mapped)[k] != tokens.entries[i].0 {
      assert Keys(mapped)[k] == tokens.entries[k].0;
      assert tokens.entries[k].0 != tokens.entries[i].0;
    }
  }

  /** The record `saveSpec` builds has the keys and lookups of the token map it came from. */
  lemma MappedAlike(tokens: Record<Token>, mapped: Record<MappedToken>)
    requires Valid(tokens)
    requires mapped.entries == EmptyPools(tokens.entries)
    ensures Valid(mapped)
    ensures Keys(mapped) == Keys(tokens)
    ensures forall k :: Get(tokens, k).Some? ==> Get(mapped, k) == Some(MappedToken(Get(tokens, k).value, []))
  {
    assert forall k :: 0 <= k < |tokens.entries| ==> mapped.entries[k].0 == tokens.entries[k].0;
    assert Keys(mapped) == Keys(tokens);
    forall k | Get(tokens, k).Some?
      ensures Get(mapped, k) == Some(MappedToken(Get(tokens, k).value, []))
    {
      var i :| 0 <= i < |tokens.entries| && tokens.entries[i].0 == k;
      GetAt(tokens, i);
      GetAt(mapped, i);
    }
  }

  /** The loop test `availableTokens.length < quantity` for a pool of `n` values. */
  predicate Below(n: nat, quantity: Number)
  {
    Less(Finite(n as real), quantity)
  }

  /**
   * The pool size the fill loop stops at: the lengths at which it keeps
   * pushing are exactly those below it. That is `quantity` rounded up for a
   * positive number, and 0 for `NaN` or a number at most 0.
   */
  function PoolSize(quantity: Number): (size: nat)
    ensures forall n: nat :: Below(n, quantity) <==> n < size
  {
    match quantity
    case NaN => 0
    case Finite(v) =>
      if v <= 0.0 then 0
      else
        var f := v.Floor;
        if f as real == v then f else f + 1
  }

  /** A non-negative integer quantity is met exactly; `NaN` and non-positive ones give empty pools. */
  lemma PoolSizeOfIntegers(k: nat, v: real)
    ensures PoolSize(Finite(k as real)) == k
    ensures v <= 0.0 ==> PoolSize(Finite(v)) == 0
    ensures PoolSize(NaN) == 0
  {
    assert !Below(k, Finite(k as real));
    if k > 0 {
      assert Below(k - 1, Finite(k as real));
    }
  }

  /**
   * The `while` loop for one token: push generated values until the pool
   * is no longer below `quantity`. Draws are numbered from `base`; the first
   * draw that throws ends the loop with its number.
   */
  method FillPool(schema: Json, quantity: Number, faker: Faker, base: nat) returns (r: Result<seq<Json>, nat>)
    ensures r.Success? ==> |r.value| == PoolSize(quantity)
    ensures r.Success? ==> forall j :: 0 <= j < |r.value| ==> faker(schema, base + j) == Some(r.value[j])
    ensures r.Failure? ==> base <= r.error < base + PoolSize(quantity) && faker(schema, r.error).None?
    ensures r.Failure? ==> forall c :: base <= c < r.error ==> faker(schema, c).Some?
    ensures r.Success? <==> forall c :: base <= c < base + PoolSize(quantity) ==> faker(schema, c).Some?
  {
    var pool: seq<Json> := [];
    while Below(|pool|, quantity)
      invariant |pool| <= PoolSize(quantity)
      invariant forall j :: 0 <= j < |pool| ==> faker(schema, base + j) == Some(pool[j])
      decreases PoolSize(quantity) - |pool|
    {
      var drawn := faker(schema, base + |pool|);
      if drawn.None? {
        forall c | base <= c < base + |pool| ensures faker(schema, c).Some? {
          assert faker(schema, base + (c - base)) == Some(pool[c - base]);
        }
        return Failure(base + |pool|);
      }
      pool := pool + [drawn.value];
    }
    forall c | base <= c < base + |pool| ensures faker(schema, c).Some? {
      assert faker(schema, base + (c - base)) == Some(pool[c - base]);
    }
    return Success(pool);
  }

  /**
   * Why a fill failed: the token whose generator call threw, and that
   * call's number. This detail is the model's own: the command drops the
   * caught error and throws one fixed message.
   */
  datatype FillFault = FillFault(token: string, draw: nat)

  /** Every draw token `i` makes, numbers `i * size` up to `(i + 1) * size`, succeeds. */
  predicate DrawsSucceed(tokens: Record<MappedToken>, size: nat, faker: Faker, i: nat)
    requires i < |tokens.entries|
  {
    forall c :: i * size <= c < i * size + size ==> faker(tokens.entries[i].1.token.schema, c).Some?
  }

  /**
   * The pool-filling loop of `generateRandomData`: for each key in order,
   * reset the pool to empty and refill it. Earlier contents are discarded:
   * every pool ends up holding exactly the generator's values for its own
   * token's schema, `PoolSize(quantity)` of them. If any generator call
   * throws, the whole operation fails.
   */
  method FillPools(tokens: Record<MappedToken>, quantity: Number, faker: Faker)
    returns (r: Result<Record<MappedToken>, FillFault>)
    ensures r.Success? ==> Keys(r.value) == Keys(tokens)
    ensures r.Success? ==> forall i :: 0 <= i < |tokens.entries| ==>
              r.value.entries[i].1.token == tokens.entries[i].1.token &&
              |r.value.entries[i].1.availableTokens| == PoolSize(quantity)
    ensures r.Success? ==> forall i, j :: 0 <= i < |tokens.entries| && 0 <= j < |r.value.entries[i].1.availableTokens| ==>
              faker(tokens.entries[i].1.token.schema, i * PoolSize(quantity) + j) ==
              Some(r.value.entries[i].1.availableTokens[j])
    ensures r.Failure? ==>
              exists i :: (0 <= i < |tokens.entries| && tokens.entries[i].0 == r.error.token &&
                           faker(tokens.entries[i].1.token.schema, r.error.draw).None?)
    ensures r.Success? <==> forall i :: 0 <= i < |tokens.entries| ==> DrawsSucceed(tokens, PoolSize(quantity), faker, i)
    ensures r.Success? ==> (PoolsReady(r.value) <==> PoolSize(quantity) > 0 || |tokens.entries| == 0)
  {
    var size := PoolSize(quantity);
    var filled: seq<(string, MappedToken)> := [];
    var i := 0;
    while i < |tokens.entries|
      invariant 0 <= i <= |tokens.entries|
      invariant |filled| == i
      invariant forall k :: 0 <= k < i ==>
                  filled[k].0 == tokens.entries[k].0 && filled[k].1.token == tokens.entries[k].1.token &&
                  |filled[k].1.availableTokens| == size
      invariant forall k, j :: 0 <= k < i && 0 <= j < |filled[k].1.availableTokens| ==>
                  faker(tokens.entries[k].1.token.schema, k * size + j) == Some(filled[k].1.availableTokens[j])
      invariant forall k :: 0 <= k < i ==> DrawsSucceed(tokens, size, faker, k)
    {
      var entry := tokens.entries[i];
      var pool := FillPool(entry.1.token.schema, quantity, faker, i * size);
      if pool.Failure? {
        assert !DrawsSucceed(tokens, size, faker, i);
        return Failure(FillFault(entry.0, pool.error));
      }
      filled := filled + [(entry.0, MappedToken(entry.1.token, pool.value))];
      i := i + 1;
    }
    var out := Record(filled);
    assert Keys(out) == Keys(tokens);
    if size == 0 && |filled| > 0 {
      assert |filled[0].1.availableTokens| == 0;
    }
    return Success(out);
  }

  /** Every token's pool holds at least one value. */
  predicate PoolsReady(tokens: Record<MappedToken>)
  {
    forall i :: 0 <= i < |tokens.entries| ==> |tokens.entries[i].1.availableTokens| > 0
  }

  /** The names of the tokens whose pool is empty, each once, in key order. */
  function EmptyPoolNames(es: seq<(string, MappedToken)>): (names: seq<string>)
    ensures |names| <= |es|
    ensures forall k :: k in names <==>
              exists i :: 0 <= i < |es| && es[i].0 == k && |es[i].1.availableTokens| == 0
  {
    if |es| == 0 then []
    else
      var init := es[..|es| - 1];
      var last := es[|es| - 1];
      assert forall i :: 0 <= i < |init| ==> init[i] == es[i];
      EmptyPoolNames(init) + (if |last.1.availableTokens| == 0 then [last.0] else [])
  }

  /**
   * The check `generateTests` makes before generating: go through every
   * token, report each one with an empty pool, and allow testing only if
   * none was reported.
   */
  method CheckPools(tokens: Record<MappedToken>) returns (availableToTest: bool, reported: seq<string>)
    ensures availableToTest <==> PoolsReady(tokens)
    ensures reported == EmptyPoolNames(tokens.entries)
    ensures availableToTest <==> reported == []
    ensures forall k :: k in reported <==>
              exists i :: 0 <= i < |tokens.entries| && tokens.entries[i].0 == k &&
                          |tokens.entries[i].1.availableTokens| == 0
  {
    availableToTest := true;
    reported := [];
    var i := 0;
    while i < |tokens.entries|
      invariant 0 <= i <= |tokens.entries|
      invariant availableToTest <==> forall k :: 0 <= k < i ==> |tokens.entries[k].1.availableTokens| > 0
      invariant availableToTest <==> reported == []
      invariant reported == EmptyPoolNames(tokens.entries[..i])
    {
      if |tokens.entries[i].1.availableTokens| == 0 {
        reported := reported + [tokens.entries[i].0];
        availableToTest := false;
      }
      assert tokens.entries[..i + 1][..i] == tokens.entries[..i];
      i := i + 1;
    }
    assert tokens.entries[..i] == tokens.entries;
  }

  /** How `generateRandomData` ends. */
  datatype FillOutcome =
    | InvalidChoice             // the chosen spec was not valid: nothing happens
    | MissingTokens             // reading the spec's `tokens.json` threw
    | GenerationFailed(fault: FillFault)   // a generator call threw: the command throws its fixed message; `fault` is the model's detail, not reported
    | Saved                     // the filled pools were written back

  /**
   * `generateRandomData`: choose a spec, fill every pool of its
   * `tokens.json`, and write the file back. When a generator call throws,
   * the command throws before the write, so the file is left as it was.
   */
  method GenerateRandomData(specs: seq<string>, choice: Number, files: map<string, Record<MappedToken>>,
                            quantity: Number, faker: Faker)
    returns (outcome: FillOutcome, after: map<string, Record<MappedToken>>)
    ensures outcome == InvalidChoice <==> !IsValidSpec(ChooseSpec(specs, choice))
    ensures !outcome.Saved? ==> after == files
    ensures outcome == MissingTokens <==>
              IsValidSpec(ChooseSpec(specs, choice)) && ChooseSpec(specs, choice).value !in files
    ensures outcome.Saved? || outcome.GenerationFailed? ==>
              IsValidSpec(ChooseSpec(specs, choice)) && ChooseSpec(specs, choice).value in files
    ensures outcome.Saved? ==>
              var spec := ChooseSpec(specs, choice).value;
              && after.Keys == files.Keys
              && (forall other :: other in files && other != spec ==> after[other] == files[other])
              && Keys(after[spec]) == Keys(files[spec])
              && (forall i :: 0 <= i < |files[spec].entries| ==>
                    after[spec].entries[i].1.token == files[spec].entries[i].1.token &&
                    |after[spec].entries[i].1.availableTokens| == PoolSize(quantity))
    ensures outcome.Saved? ==>
              var spec := ChooseSpec(specs, choice).value;
              forall i, j :: 0 <= i < |files[spec].entries| && 0 <= j < |after[spec].entries[i].1.availableTokens| ==>
                faker(files[spec].entries[i].1.token.schema, i * PoolSize(quantity) + j) ==
                Some(after[spec].entries[i].1.availableTokens[j])
    ensures IsValidSpec(ChooseSpec(specs, choice)) && ChooseSpec(specs, choice).value in files ==>
              var stored := files[ChooseSpec(specs, choice).value];
              (outcome.Saved? <==>
                 forall i :: 0 <= i < |stored.entries| ==> DrawsSucceed(stored, PoolSize(quantity), faker, i))
  {
    var spec := ChooseSpec(specs, choice);
    if !IsValidSpec(spec) {
      return InvalidChoice, files;
    }
    if spec.value !in files {
      return MissingTokens, files;
    }
    var filled := FillPools(files[spec.value], quantity, faker);
    if filled.Failure? {
      return GenerationFailed(filled.error), files;
    }
    return Saved, files[spec.value := filled.value];
  }

  /** How the checks at the start of `generateTests` end. */
  datatype TestsOutcome =
    | InvalidSpec                       // the chosen spec was not valid
    | NoTokensFile                      // reading the spec's `tokens.json` threw
    | Blocked(emptyPools: seq<string>)  // some pools are empty: the tokens are reported and nothing is generated
    | Proceeds(tokens: Record<MappedToken>)   // generation goes ahead with these pools

  /**
   * The gate of `generateTests`: generation goes ahead exactly when the
   * chosen spec is valid, its `tokens.json` exists, and no pool is empty.
   */
  method GenerateTestsGate(specs: seq<string>, choice: Number, files: map<string, Record<MappedToken>>)
    returns (outcome: TestsOutcome)
    ensures outcome == InvalidSpec <==> !IsValidSpec(ChooseSpec(specs, choice))
    ensures outcome.Proceeds? ==>
              IsValidSpec(ChooseSpec(specs, choice)) && ChooseSpec(specs, choice).value in files &&
              outcome.tokens == files[ChooseSpec(specs, choice).value] && PoolsReady(outcome.tokens)
    ensures IsValidSpec(ChooseSpec(specs, choice)) && ChooseSpec(specs, choice).value in files ==>
              (outcome.Proceeds? <==> PoolsReady(files[ChooseSpec(specs, choice).value]))
    ensures outcome == NoTokensFile <==>
              IsValidSpec(ChooseSpec(specs, choice)) && ChooseSpec(specs, choice).value !in files
    ensures outcome.Blocked? ==> |outcome.emptyPools| > 0
    ensures outcome.Blocked? ==> outcome.emptyPools == EmptyPoolNames(files[ChooseSpec(specs, choice).value].entries)
    ensures outcome.Blocked? ==>
              var stored := files[ChooseSpec(specs, choice).value];
              forall k :: k in outcome.emptyPools <==>
                exists i :: 0 <= i < |stored.entries| && stored.entries[i].0 == k &&
                            |stored.entries[i].1.availableTokens| == 0
  {
    var spec := ChooseSpec(specs, choice);
    if !IsValidSpec(spec) {
      return InvalidSpec;
    }
    if spec.value !in files {
      return NoTokensFile;
    }
    var tokens := files[spec.value];
    var availableToTest, reported := CheckPools(tokens);
    if !availableToTest {
      return Blocked(reported);
    }
    return Proceeds(tokens);
  }
}
