/** The pure decisions of the provider utilities: spec selection, spec validity, random pick. */
module Utils {
  import opened Wrappers
  import opened JsValues

  /** The menu `chooseSpec` prints: the 1-based number shown next to each spec. */
  function MenuLines(specs: seq<string>): (lines: seq<(int, string)>)
    ensures |lines| == |specs|
    ensures forall i :: 0 <= i < |specs| ==> lines[i] == (i + 1, specs[i])
  {
    seq(|specs|, i requires 0 <= i < |specs| => (i + 1, specs[i]))
  }

  /**
   * `availableSpecs[specIndex - 1]` for the number typed in: an array read
   * with a number key finds an element only when the key is an integer in
   * range, and gives `undefined` for anything else, `NaN` included.
   */
  function ChooseSpec(specs: seq<string>, choice: Number): (chosen: Option<string>)
    ensures chosen.Some? <==> IsInteger(choice) && 1.0 <= choice.value <= |specs| as real
    ensures chosen.Some? ==> chosen.value == specs[choice.value.Floor - 1]
  {
    if IsInteger(choice) && 1.0 <= choice.value && choice.value <= |specs| as real then
      Some(specs[choice.value.Floor - 1])
    else None
  }

  /** Typing the number printed next to a spec selects that spec, and only printed numbers select. */
  lemma {:induction false} ChooseSpecInvertsMenu(specs: seq<string>, i: nat, choice: Number)
    requires i < |specs|
    ensures ChooseSpec(specs, Finite(MenuLines(specs)[i].0 as real)) == Some(specs[i])
    ensures ChooseSpec(specs, choice).Some? ==>
              exists k :: 0 <= k < |specs| && choice == Finite(MenuLines(specs)[k].0 as real) &&
                          ChooseSpec(specs, choice) == Some(MenuLines(specs)[k].1)
  {
    var n := MenuLines(specs)[i].0;
    assert n == i + 1;
    assert (n as real).Floor == n;
    if ChooseSpec(specs, choice).Some? {
      var k := choice.value.Floor - 1;
      assert 0 <= k < |specs|;
      assert choice == Finite(MenuLines(specs)[k].0 as real);
    }
  }

  /** `isValidSpec`: `!spec` rejects `undefined`, `null` and the empty string. */
  function IsValidSpec(spec: Option<string>): (valid: bool)
    ensures valid <==> spec.Some? && |spec.value| > 0
  {
    match spec
    case None => false
    case Some(s) => s != ""
  }

  /**
   * Choosing then validating: with the non-empty names a directory listing
   * yields, the pair accepts exactly the numbers printed in the menu.
   */
  lemma ChosenSpecIsValid(specs: seq<string>, choice: Number)
    requires forall i :: 0 <= i < |specs| ==> specs[i] != ""
    ensures IsValidSpec(ChooseSpec(specs, choice)) <==>
              exists k :: 0 <= k < |specs| && choice == Finite(MenuLines(specs)[k].0 as real)
  {
    if IsValidSpec(ChooseSpec(specs, choice)) {
      var k := choice.value.Floor - 1;
      assert choice == Finite(MenuLines(specs)[k].0 as real);
    }
    if exists k :: 0 <= k < |specs| && choice == Finite(MenuLines(specs)[k].0 as real) {
      var k :| 0 <= k < |specs| && choice == Finite(MenuLines(specs)[k].0 as real);
      ChooseSpecInvertsMenu(specs, k, choice);
    }
  }

  /**
   * `selectRandomToken`: `tokens[Math.floor(random * tokens.length)]` for a
   * draw `random` in [0, 1).
   */
  function SelectRandomToken<T>(tokens: seq<T>, random: real): (pick: Option<T>)
    requires 0.0 <= random < 1.0
    ensures |tokens| == 0 ==> pick.None?
    ensures |tokens| > 0 ==> pick.Some? && pick.value in tokens
  {
    var index := (random * |tokens| as real).Floor;
    ScaledFloorInRange(random, |tokens|);
    if 0 <= index < |tokens| then Some(tokens[index]) else None
  }

  /** Scaling a draw from [0, 1) by `n` and flooring lands on an index below `n`. */
  lemma ScaledFloorInRange(random: real, n: nat)
    requires 0.0 <= random < 1.0
    ensures n > 0 ==> 0 <= (random * n as real).Floor < n
  {
    if n > 0 {
      var x := random * n as real;
      assert 0.0 <= x;
      assert x < n as real by {
        assert (1.0 - random) * n as real > 0.0;
      }
    }
  }

  /** A quotient of a non-negative number by a larger one lies in [0, 1). */
  lemma QuotientBelowOne(a: real, b: real)
    requires 0.0 <= a < b
    ensures 0.0 <= a / b < 1.0
  {
    var q := a / b;
    assert q * b == a;
    assert (1.0 - q) * b == b - a;
  }

  /** Every element can be drawn: the draw `i / n` picks the i-th of n. */
  lemma {:induction false} EveryTokenCanBePicked<T>(tokens: seq<T>, i: nat)
    requires i < |tokens|
    ensures var random := i as real / |tokens| as real;
            0.0 <= random < 1.0 && SelectRandomToken(tokens, random) == Some(tokens[i])
  {
    var n := |tokens| as real;
    var random := i as real / n;
    assert random * n == i as real;
    QuotientBelowOne(i as real, n);
    assert (i as real).Floor == i;
    assert (random * |tokens| as real).Floor == i;
  }
}
