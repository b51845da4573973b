/** Vocabulary shared by every route handler: bytes and Rust strings, and the
    foreign functions the handlers call but whose code is not modelled
    (the AES wrapper, lower-casing, UTF-8 decoding, MIME sniffing and image
    size decoding). */
module Prelude {

  datatype Option<+T> = None | Some(value: T) {
    function GetOr(default: T): T {
      match this
      case Some(v) => v
      case None => default
    }
  }

  newtype byte = b: int | 0 <= b < 256

  /** Raw bytes, as they arrive in a multipart body. */
  type Bytes = seq<byte>

  /** A Rust `String`, held as its UTF-8 encoding, so that `s.len()` is `|s|`. */
  type Text = seq<byte>

  /** The foreign collaborators, as total functions the model never looks
      inside.  Each handler receives the same `Env`, so every call is
      deterministic, as the encrypted-field lookups require. */
  datatype Env = Env(
    encrypt: Text -> Text,              // magic_crypt, base64 ciphertext under the process key
    decrypt: Text -> Option<Text>,      // None where the source's `unwrap` would panic
    lower: Text -> Text,                // str::to_lowercase
    validUtf8: Bytes -> bool,           // std::str::from_utf8 succeeds
    lossy: Bytes -> Text,               // String::from_utf8_lossy
    sniff: Bytes -> string,             // tree_magic::from_u8, a MIME type name
    dims: Bytes -> Option<(nat, nat)>)  // imagesize::blob_size, (width, height)

  /** The case-insensitive anchored regex match `^lower(b)$` (option `i`)
      that the handlers use to compare a stored name with a query. */
  predicate SameIgnoringCase(env: Env, a: Text, b: Text) {
    env.lower(a) == env.lower(b)
  }

  /** Distinct plaintexts give distinct ciphertexts. */
  ghost predicate Injective(f: Text -> Text) {
    forall x, y :: f(x) == f(y) ==> x == y
  }

  /** `s` ends with `suffix`. */
  predicate EndsWith(s: Text, suffix: Text) {
    |suffix| <= |s| && s[|s| - |suffix|..] == suffix
  }
}
