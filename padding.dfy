/**
 * The codec's own padding: before encryption the body is filled up to a whole
 * number of AES blocks with '*', and after decryption every trailing '*' is
 * stripped (avbmsg.py lines 82-83 and 106).
 */
module Padding {
  import opened Crypto

  const PAD_CHAR := '*'

  function Stars(k: nat): (s: string)
    ensures |s| == k
    ensures forall i :: 0 <= i < k ==> s[i] == PAD_CHAR
  {
    if k == 0 then [] else Stars(k - 1) + [PAD_CHAR]
  }

  /** AES.block_size - (n % AES.block_size): never zero, so a full block is added to an exact multiple. */
  function PadLength(n: nat): (p: nat)
    ensures 1 <= p <= BLOCK_SIZE
    ensures (n + p) % BLOCK_SIZE == 0
    ensures n % BLOCK_SIZE == 0 <==> p == BLOCK_SIZE
  {
    BLOCK_SIZE - n % BLOCK_SIZE
  }

  /** The plaintext handed to the cipher: the body followed by its padding. */
  function Pad(s: string): (r: string)
    ensures |r| % BLOCK_SIZE == 0
    ensures |s| < |r| <= |s| + BLOCK_SIZE
    ensures r[..|s|] == s
    ensures forall i :: |s| <= i < |r| ==> r[i] == PAD_CHAR
  {
    s + Stars(PadLength(|s|))
  }

  /** s.rstrip('*'). */
  function RStrip(s: string): (r: string)
    ensures |r| <= |s| && r == s[..|r|]
    ensures r == [] || r[|r| - 1] != PAD_CHAR
    ensures forall i :: |r| <= i < |s| ==> s[i] == PAD_CHAR
  {
    if s != [] && s[|s| - 1] == PAD_CHAR then RStrip(s[..|s| - 1]) else s
  }

  /** Appending '*' characters does not change what rstrip returns. */
  lemma {:induction false} RStripStars(s: string, k: nat)
    ensures RStrip(s + Stars(k)) == RStrip(s)
    decreases k
  {
    if k > 0 {
      var t := s + Stars(k);
      assert t[..|t| - 1] == s + Stars(k - 1);
      RStripStars(s, k - 1);
    } else {
      assert s + Stars(k) == s;
    }
  }

  /**
   * Stripping the padded text gives the body back exactly when the body does
   * not itself end in '*'; otherwise its own trailing '*' are lost too.
   */
  lemma StripPad(s: string)
    ensures RStrip(Pad(s)) == RStrip(s)
    ensures RStrip(Pad(s)) == s <==> s == [] || s[|s| - 1] != PAD_CHAR
  {
    RStripStars(s, PadLength(|s|));
  }
}
