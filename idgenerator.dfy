/**
 * The short-id generator (src/utils/idGenerator.ts): `length` characters drawn
 * from a 36-character alphabet. `Math.random` is an oracle: `random(i)` is the
 * value of the `i`-th call.
 */
module IdGenerator {

  const Alphabet := "ABCDEFGHIJKLMNOPQRSTUVWXYZ0123456789"

  /** The default of `length` is 6 (the doc comment on the function says 4). */
  const DefaultLength := 6

  /** `Math.floor(r * chars.length)`. */
  function DrawIndex(r: real): (index: int)
    ensures 0.0 <= r < 1.0 ==> 0 <= index < |Alphabet|
  {
    (r * |Alphabet| as real).Floor
  }

  /** `chars.charAt(index)`: the one character at `index`, or `""` out of range. */
  function CharAt(s: string, index: int): (r: string)
    ensures |r| <= 1
    ensures r != "" <==> 0 <= index < |s|
    ensures r != "" ==> r[0] == s[index]
  {
    if 0 <= index < |s| then [s[index]] else ""
  }

  /** A draw is usable when it lies in `[0, 1)`, as `Math.random` promises. */
  predicate UsableDraws(length: int, random: nat -> real) {
    forall i: nat :: i < length ==> 0.0 <= random(i) < 1.0
  }

  /**
   * `generateShortId(length)`: one `charAt` per iteration appended to `result`.
   * The result never exceeds `length`, uses only alphabet characters, and when
   * every draw lies in `[0, 1)` it has exactly `length` characters, the `j`-th
   * picked by the `j`-th draw. A length of 0 or less gives `""`.
   */
  method GenerateShortId(random: nat -> real, length: int := DefaultLength) returns (id: string)
    ensures |id| <= (if length > 0 then length else 0)
    ensures forall j :: 0 <= j < |id| ==> id[j] in Alphabet
    ensures UsableDraws(length, random) ==>
      |id| == (if length > 0 then length else 0) &&
      forall j :: 0 <= j < |id| ==> id[j] == Alphabet[DrawIndex(random(j))]
  {
    id := "";
    ghost var drawn: seq<int> := [];
    var i := 0;
    while i < length
      invariant 0 <= i <= (if length > 0 then length else 0)
      invariant |id| == |drawn| <= i
      invariant forall j :: 0 <= j < |id| ==> 0 <= drawn[j] < |Alphabet| && id[j] == Alphabet[drawn[j]]
      invariant UsableDraws(length, random) ==>
        |id| == i && forall j :: 0 <= j < i ==> drawn[j] == DrawIndex(random(j))
    {
      var index := DrawIndex(random(i));
      var c := CharAt(Alphabet, index);
      if c != "" {
        drawn := drawn + [index];
      }
      id := id + c;
      i := i + 1;
    }
  }
}
