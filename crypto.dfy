/**
 * The foreign primitives the message codec calls: base64 (section 4 of RFC 4648)
 * and AES-256 in CBC mode. They are not modelled; the codec receives them as a
 * record of functions, and `Sound` lists the only facts about them the proofs rely on.
 */
module Crypto {
  import opened Wrappers

  /** AES.block_size: bytes per cipher block, and the IV length. */
  const BLOCK_SIZE: nat := 16

  datatype Primitives = Primitives(
    b64encode: string -> string,
    b64decode: string -> Option<string>,            // None where b64decode raises
    encrypt: (string, string, string) -> string,    // (key, iv, plaintext) to ciphertext
    decrypt: (string, string, string) -> string)    // (key, iv, ciphertext) to plaintext

  /** AES.new accepts 128, 192 and 256 bit keys and raises on any other length. */
  predicate KeySizeOk(key: string)
  {
    |key| == 16 || |key| == 24 || |key| == 32
  }

  /**
   * What base64 and CBC do for the codec: decoding inverts encoding, the text
   * of n bytes has 4 * ceil(n / 3) characters, and CBC without padding keeps
   * the length of a whole number of blocks and is undone by decryption with
   * the same key and IV.
   */
  ghost predicate Sound(p: Primitives)
  {
    && (forall x :: p.b64decode(p.b64encode(x)) == Some(x))
    && (forall x :: |p.b64encode(x)| == 4 * ((|x| + 2) / 3))
    && (forall k, iv, m :: |m| % BLOCK_SIZE == 0 ==> |p.encrypt(k, iv, m)| == |m|)
    && (forall k, iv, m ::
          KeySizeOk(k) && |iv| == BLOCK_SIZE && |m| % BLOCK_SIZE == 0 ==>
            p.decrypt(k, iv, p.encrypt(k, iv, m)) == m)
  }
}
