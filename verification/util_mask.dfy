/** internal/util/mask.go: how secrets are shown in logs. */
module Mask {
  import opened GoText

  /** How many leading characters of a secret stay visible. */
  const Keep: nat := 4

  /** MaskSecret: a secret of at most four characters is starred out completely; a longer
      one keeps its first four characters and stars out the rest. The length is kept. */
  function MaskSecret(value: string): (r: string)
    ensures |r| == |value|
    ensures |value| <= Keep ==> forall i :: 0 <= i < |r| ==> r[i] == '*'
    ensures |value| > Keep ==> r[..Keep] == value[..Keep]
    ensures forall i :: Keep <= i < |r| ==> r[i] == '*'
  {
    if value == "" then ""
    else if |value| <= Keep then Stars(|value|)
    else value[..Keep] + Stars(|value| - Keep)
  }

  /** What the masked form reveals is the length and the first four characters: two
      secrets that agree on those are masked alike. */
  lemma MaskRevealsOnlyPrefix(a: string, b: string)
    requires |a| == |b|
    requires |a| > Keep ==> a[..Keep] == b[..Keep]
    ensures MaskSecret(a) == MaskSecret(b)
  {
    var ma, mb := MaskSecret(a), MaskSecret(b);
    forall i | 0 <= i < |ma| ensures ma[i] == mb[i] {
      if i < Keep && |a| > Keep {
        assert ma[i] == ma[..Keep][i] == a[..Keep][i] == b[..Keep][i] == mb[..Keep][i];
      }
    }
  }

  /** Masking an already masked value changes nothing. */
  lemma MaskIdempotent(value: string)
    ensures MaskSecret(MaskSecret(value)) == MaskSecret(value)
  {
    MaskRevealsOnlyPrefix(MaskSecret(value), value);
  }
}
