/** The left-padding helper of the palette editor component: `lpad` prepends the pad
    string to the string until it is at least the requested length. Each element of a
    string stands for one unit of the `length` of a JavaScript string. */
module Palette {

  /** k copies of the pad string, one after the other. */
  function Repeat(pad: string, k: nat): string
  {
    if k == 0 then [] else pad + Repeat(pad, k - 1)
  }

  /** `lpad`: while the string is shorter than `length`, put the pad string in front of
      it. The result is the pad string k times followed by the string, for the least k
      that reaches `length`; a string already long enough comes back unchanged. With an
      empty pad string and a string that is too short the loop never ends, so the caller
      must rule that case out. */
  method LPad(str: string, padString: string, length: int) returns (r: string, ghost k: nat)
    requires |padString| > 0 || |str| >= length
    ensures r == Repeat(padString, k) + str
    ensures |r| >= length
    ensures k > 0 ==> |Repeat(padString, k - 1) + str| < length
    ensures |str| >= length ==> r == str
  {
    r, k := str, 0;
    while |r| < length
      invariant r == Repeat(padString, k) + str
      invariant k > 0 ==> |Repeat(padString, k - 1) + str| < length
      decreases length - |r|
    {
      assert padString + (Repeat(padString, k) + str) == Repeat(padString, k + 1) + str;
      r := padString + r;
      k := k + 1;
    }
  }

  /** More copies are never shorter. */
  lemma {:induction false} RepeatGrows(pad: string, i: nat, j: nat)
    requires i <= j
    ensures |Repeat(pad, i)| <= |Repeat(pad, j)|
    decreases j
  {
    if i < j {
      RepeatGrows(pad, i, j - 1);
    }
  }

  /** The pad count LPad's contract describes is unique: with a non-empty pad string, two
      counts that both reach `length` and are both the least to do so are the same, so
      the contract fixes the result. */
  lemma PadCountUnique(pad: string, str: string, length: int, k1: nat, k2: nat)
    requires |pad| > 0
    requires |Repeat(pad, k1) + str| >= length && (k1 > 0 ==> |Repeat(pad, k1 - 1) + str| < length)
    requires |Repeat(pad, k2) + str| >= length && (k2 > 0 ==> |Repeat(pad, k2 - 1) + str| < length)
    ensures k1 == k2
  {
    if k1 < k2 {
      RepeatGrows(pad, k1, k2 - 1);
    } else if k2 < k1 {
      RepeatGrows(pad, k2, k1 - 1);
    }
  }
}
