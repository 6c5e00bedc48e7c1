/** `obtenerClavePublica`: reading and decoding the trusted RSA public key. */
module KeyLoader {
  import opened Wrappers
  import opened Errors
  import opened Constants
  import opened Jwt
  import opened Files
  import Pem

  /** The Java security provider and base64 decoder: whether an RSA key factory
      exists, the decoder (`None` on malformed input), and which DER encodings
      the key factory accepts as an X.509 RSA key. */
  datatype Crypto = Crypto(
    rsaAvailable: bool,
    decodeBase64: string -> Option<Bytes>,
    isX509Rsa: Bytes -> bool)

  /** Steps in order: read the file, normalise the PEM text, get the RSA key
      factory, decode base64, build the key. Every checked failure becomes error
      code 1; malformed base64 escapes as an unchecked exception. */
  function LoadPublicKey(file: FileContent, crypto: Crypto): (r: Result<PublicKey, Error>)
    ensures r.Success? <==>
      && file.Contents?
      && crypto.rsaAvailable
      && crypto.decodeBase64(Pem.Normalise(file.text)).Some?
      && crypto.isX509Rsa(crypto.decodeBase64(Pem.Normalise(file.text)).value)
    ensures r.Success? ==> crypto.decodeBase64(Pem.Normalise(file.text)) == Some(r.value.encoded)
    ensures r.Failure? && r.error.BaseServerException? ==> r.error.code == ErrGettingPublicKey
    ensures r.Failure? && r.error.RuntimeException? ==>
      r.error.kind == IllegalBase64 && file.Contents? && crypto.decodeBase64(Pem.Normalise(file.text)).None?
    ensures file.Unreadable? ==> r == Failure(BaseServerException(ErrGettingPublicKey, KeyFileUnreadable))
    ensures file.Contents? && !crypto.rsaAvailable ==> r == Failure(BaseServerException(ErrGettingPublicKey, NoSuchAlgorithm))
  {
    match file
    case Unreadable => Failure(BaseServerException(ErrGettingPublicKey, KeyFileUnreadable))
    case Contents(text) =>
      var content := Pem.Normalise(text);
      if !crypto.rsaAvailable then
        Failure(BaseServerException(ErrGettingPublicKey, NoSuchAlgorithm))
      else
        match crypto.decodeBase64(content)
        case None => Failure(RuntimeException(IllegalBase64))
        case Some(der) =>
          if crypto.isX509Rsa(der) then Success(RsaPublicKey(der))
          else Failure(BaseServerException(ErrGettingPublicKey, InvalidKeySpec))
  }

  /** `init`: the parser is built once, with the key loaded at start-up; a load
      failure aborts start-up with that failure. */
  function InitVerifier(file: FileContent, crypto: Crypto, parse: (PublicKey, string) -> Option<Claims>): (r: Result<Verifier, Error>)
    ensures r.Success? <==> LoadPublicKey(file, crypto).Success?
    ensures r.Success? ==> r.value.key == LoadPublicKey(file, crypto).value && r.value.parse == parse
    ensures r.Failure? ==> r.error == LoadPublicKey(file, crypto).error
  {
    var key :- LoadPublicKey(file, crypto);
    Success(Verifier(key, parse))
  }
}
