/**
 Credential IDs: the private key of a credential and the hash of its relying party, encrypted and
 authenticated with the master keys of the authenticator.
 */
module Credentials {
  import opened Wrappers
  import opened Blocks
  import Cipher
  import opened KeySchedule
  import opened Cbc
  import Hmac
  import opened Ctap

  /** The order of the curve P-256. */
  const ORDER: nat := 0xffffffff_00000000_ffffffff_ffffffff_bce6faad_a7179e84_f3b9cac2_fc632551

  /** The number that bytes represent, the most significant first. */
  function NumberOf(bytes: seq<bv8>): nat {
    if bytes == [] then 0 else 256 * NumberOf(bytes[..|bytes| - 1]) + bytes[|bytes| - 1] as nat
  }

  /** The 32 bytes of a private key represent a positive number below the order. */
  predicate IsPrivateKey(bytes: seq<bv8>) {
    |bytes| == 32 && 0 < NumberOf(bytes) < ORDER
  }

  datatype MasterKeys = MasterKeys(encryption: Key, hmac: seq<bv8>)

  datatype CredentialSource = CredentialSource(credentialId: seq<bv8>, privateKey: seq<bv8>)

  const CREDENTIAL_ID_SIZE: nat := 112

  // ---------------------------------------------------------------------------------------------
  // Credential IDs

  function CredentialId(keys: MasterKeys, iv: Block, k: seq<bv8>, application: seq<bv8>): (id: seq<bv8>)
    requires |k| == |application| == 32
    ensures |id| == CREDENTIAL_ID_SIZE
  {
    var payload := iv + Sealed(keys.encryption, iv, k + application);
    payload + Hmac.Hmac256(keys.hmac, payload)
  }

  /** The credential of an ID, if it is authentic and for a relying party. */
  function Opened(keys: MasterKeys, id: seq<bv8>, rpIdHash: seq<bv8>): Option<CredentialSource> {
    hide Hmac.Hmac256, Unsealed, NumberOf;
    if |id| != CREDENTIAL_ID_SIZE || id[80..] != Hmac.Hmac256(keys.hmac, id[..80]) then None
    else
      var text := Unsealed(keys.encryption, id[..16], id[16..80]);
      if rpIdHash != text[32..] || !IsPrivateKey(text[..32]) then None else Some(CredentialSource(id, text[..32]))
  }

  /** An ID gives the private key back to its relying party, and nothing to any other. */
  lemma OpenedCredentialId(keys: MasterKeys, iv: Block, k: seq<bv8>, application: seq<bv8>, rpIdHash: seq<bv8>)
    requires IsPrivateKey(k) && |application| == 32
    ensures var id := CredentialId(keys, iv, k, application);
            Opened(keys, id, rpIdHash) == if rpIdHash == application then Some(CredentialSource(id, k)) else None
  {
    hide Hmac.Hmac256, Sealed, Unsealed, NumberOf;
    var id, text := CredentialId(keys, iv, k, application), k + application;
    var sealed := Sealed(keys.encryption, iv, text);
    assert id[..16] == iv && id[16..80] == sealed && id[..80] == iv + sealed;
    SealTrips(keys.encryption, iv, text);
    assert text[..32] == k && text[32..] == application;
  }

  /** The IDs that are accepted for a relying party are exactly those made for it. */
  lemma OpenedExactly(keys: MasterKeys, id: seq<bv8>, rpIdHash: seq<bv8>)
    ensures Opened(keys, id, rpIdHash).Some? <==>
              && |rpIdHash| == 32
              && exists iv: Block, k: seq<bv8> :: IsPrivateKey(k) && id == CredentialId(keys, iv, k, rpIdHash)
  {
    hide Hmac.Hmac256, Sealed, Unsealed, NumberOf, CredentialId;
    if Opened(keys, id, rpIdHash).Some? {
      OpenedIsMade(keys, id, rpIdHash);
    } else if |rpIdHash| == 32 {
      forall iv: Block, k: seq<bv8> | IsPrivateKey(k) ensures id != CredentialId(keys, iv, k, rpIdHash) {
        OpenedCredentialId(keys, iv, k, rpIdHash, rpIdHash);
      }
    }
  }

  lemma OpenedIsMade(keys: MasterKeys, id: seq<bv8>, rpIdHash: seq<bv8>)
    requires Opened(keys, id, rpIdHash).Some?
    ensures |rpIdHash| == 32 && |id| == CREDENTIAL_ID_SIZE
    ensures id == CredentialId(keys, id[..16], Opened(keys, id, rpIdHash).value.privateKey, rpIdHash)
  {
    hide Hmac.Hmac256, Sealed, Unsealed, NumberOf;
    var text := Unsealed(keys.encryption, id[..16], id[16..80]);
    assert text == text[..32] + text[32..];
    SealTrips(keys.encryption, id[..16], id[16..80]);
    assert id[..80] == id[..16] + id[16..80] && id == id[..80] + id[80..];
  }

  // ---------------------------------------------------------------------------------------------
  // As the program runs it

  /** The master keys, from what the persistent store holds for them. */
  function StoredKeys(stored: Option<seq<bv8>>): Result<MasterKeys, StatusCode> {
    if stored.None? || |stored.value| != 64 then Err(VendorInternalError)
    else Ok(MasterKeys(stored.value[..32], stored.value[32..]))
  }

  /** Encrypts a private key and the hash of its relying party into a credential ID. */
  method EncryptKeyHandle(stored: Option<seq<bv8>>, iv: Block, privateKey: seq<bv8>, application: seq<bv8>)
    returns (r: Result<seq<bv8>, StatusCode>)
    requires IsPrivateKey(privateKey) && |application| == 32
    ensures r == if StoredKeys(stored).Err? then Err(StoredKeys(stored).error)
                 else Ok(CredentialId(StoredKeys(stored).value, iv, privateKey, application))
  {
    hide Hmac.Hmac256, Sealed, NumberOf, Expanded;
    var stored' := StoredKeys(stored);
    if stored'.Err? {
      return Err(stored'.error);
    }
    var keys := stored'.value;
    var encryptionKey := new EncryptionKey(keys.encryption);
    var sealed := Seal(encryptionKey, keys.encryption, iv, privateKey + application);
    var payload := iv + sealed;
    var mac := Hmac.Authenticate(keys.hmac, payload);
    return Ok(payload + mac);
  }

  /** Decrypts a credential ID for a relying party. */
  method DecryptCredentialSource(stored: Option<seq<bv8>>, credentialId: seq<bv8>, rpIdHash: seq<bv8>)
    returns (r: Result<Option<CredentialSource>, StatusCode>)
    ensures r == if |credentialId| == CREDENTIAL_ID_SIZE && StoredKeys(stored).Err? then Err(StoredKeys(stored).error)
                 else if |credentialId| != CREDENTIAL_ID_SIZE then Ok(None)
                 else Ok(Opened(StoredKeys(stored).value, credentialId, rpIdHash))
  {
    hide Hmac.Hmac256, Unsealed, NumberOf, Expanded, Cipher.DecryptionKeys;
    if |credentialId| != CREDENTIAL_ID_SIZE {
      return Ok(None);
    }
    var stored' := StoredKeys(stored);
    if stored'.Err? {
      return Err(stored'.error);
    }
    var keys := stored'.value;
    var authentic := Hmac.Verify(keys.hmac, credentialId[..80], credentialId[80..]);
    if !authentic {
      return Ok(None);
    }
    var encryptionKey := new EncryptionKey(keys.encryption);
    var decryptionKey := new DecryptionKey(encryptionKey);
    var text := Unseal(decryptionKey, keys.encryption, credentialId[..16], credentialId[16..80]);
    if rpIdHash != text[32..] {
      return Ok(None);
    }
    if !IsPrivateKey(text[..32]) {
      return Ok(None);
    }
    return Ok(Some(CredentialSource(credentialId, text[..32])));
  }
}
