// The cryptographic primitives the protocol uses, as arbitrary functions of their inputs.
// Only the length of their outputs is fixed; nothing else about them is ever used.
module Primitives {
  import opened Common

  datatype Crypto = Crypto(hmac: (Bytes, Bytes) -> Bytes, hkdf: (Bytes, Bytes) -> Bytes,
                           totp: (string, nat, nat) -> bool)
  {
    // HMAC-SHA256 (section 2 of RFC 2104) of a message under a key.
    function Hmac(key: Bytes, message: Bytes): (tag: Bytes)
      ensures |tag| == 32
    {
      Fit(hmac(key, message), 32)
    }

    // HKDF-SHA256 (section 2 of RFC 5869) of a token with a salt.
    function Hkdf(token: Bytes, salt: Bytes): (key: Bytes)
      ensures |key| == 32
    {
      Fit(hkdf(token, salt), 32)
    }
  }

  // An output of exactly n bytes.
  function Fit(b: Bytes, n: nat): (r: Bytes)
    ensures |r| == n
    ensures |b| == n ==> r == b
  {
    if |b| >= n then b[..n] else b + Zeros(n - |b|)
  }

  function Zeros(n: nat): (r: Bytes)
    ensures |r| == n
  {
    seq(n, _ => 0)
  }
}
