/** Value types shared by the host and the Deck models. */
module Common {
  datatype Option<+T> = None | Some(value: T)

  datatype Result<+T, +E> = Ok(value: T) | Err(error: E)

  type byte = n: int | 0 <= n < 256
  type Bytes = seq<byte>
  type u16 = n: int | 0 <= n < 0x1_0000
  type u32 = n: int | 0 <= n < 0x1_0000_0000
  type u64 = n: int | 0 <= n < 0x1_0000_0000_0000_0000

  /** A SHA-256 or HMAC-SHA-256 output. */
  type Digest = d: Bytes | |d| == 32 witness seq(32, _ => 0)

  /** The cryptographic library, as functions about which nothing is assumed.
      `seal(shared, nonce, plaintext, aad)` stands for deriving a key from the shared
      secret with HKDF (RFC 5869) and encrypting with ChaCha20-Poly1305 (RFC 8439), and
      `open(shared, nonce, ciphertext, aad)` for the reverse. */
  datatype Crypto = Crypto(
    sha256: Bytes -> Digest,
    hmac: (Bytes, Bytes) -> Digest,
    seal: (Bytes, Bytes, Bytes, Bytes) -> Option<Bytes>,
    open: (Bytes, Bytes, Bytes, Bytes) -> Option<Bytes>)

  predicate IsAscii(s: string) {
    forall i :: 0 <= i < |s| ==> s[i] < 128 as char
  }

  function Ascii(s: string): Bytes
    requires IsAscii(s)
  {
    seq(|s|, i requires 0 <= i < |s| => s[i] as int)
  }

  lemma AsciiInjective(a: string, b: string)
    requires IsAscii(a) && IsAscii(b) && Ascii(a) == Ascii(b)
    ensures a == b
  {
    assert |a| == |Ascii(a)| && |b| == |Ascii(b)|;
    forall i | 0 <= i < |a| ensures a[i] == b[i] {
      assert Ascii(a)[i] == Ascii(b)[i];
    }
  }

  /** `saturating_sub` on unsigned integers. */
  function SaturatingSub(a: nat, b: nat): nat {
    if a < b then 0 else a - b
  }
}
