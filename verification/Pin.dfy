/**
 The PIN of the authenticator: how attempts to guess it are counted, over all commands and power cycles
 (section 5.5 of CTAP 2.0).
 */
module Pin {
  import opened Wrappers
  import opened Bytes
  import opened Blocks
  import Cipher
  import opened KeySchedule
  import opened Cbc
  import Sha
  import Hmac
  import opened Ctap

  const PIN_AUTH_LENGTH: nat := 16
  const PIN_PADDED_LENGTH: nat := 64
  const PIN_TOKEN_LENGTH: nat := 32
  const MAX_PIN_RETRIES: byte := 8
  const MIN_PIN_LENGTH: nat := 4

  type Token = t: seq<bv8> | |t| == 32 witness seq(32, _ => 0)

  // ---------------------------------------------------------------------------------------------
  // The persistent store

  class PersistentStore {
    var hash: Option<Block>
    var retries: Option<byte>
    var faults: seq<Fault>

    constructor (hash: Option<Block>, retries: Option<byte>)
      ensures this.hash == hash && this.retries == retries && faults == []
    {
      this.hash := hash;
      this.retries := retries;
      this.faults := [];
    }

    /** Makes the next writes fail. */
    method Inject(faults: seq<Fault>)
      modifies this`faults
      ensures this.faults == faults
    {
      this.faults := faults;
    }

    function Next(): Fault
      reads this`faults
    {
      NextFault(faults)
    }

    method Tick() returns (fault: Fault)
      modifies this`faults
      ensures fault == old(Next()) && faults == LaterFaults(old(faults))
    {
      fault := Next();
      faults := LaterFaults(faults);
    }

    /** The number of remaining PIN retries. */
    function PinRetries(): byte
      reads this`retries
    {
      if retries.None? then MAX_PIN_RETRIES else retries.value
    }

    method SetPinHash(pinHash: Block) returns (r: Status)
      modifies this`hash, this`faults
      ensures r == Outcome(old(Next()))
      ensures hash == if Applied(old(Next())) then Some(pinHash) else old(hash)
      ensures old(faults) == [] ==> faults == []
    {
      var fault := Tick();
      if Applied(fault) {
        hash := Some(pinHash);
      }
      return Outcome(fault);
    }

    /** Decrements the number of remaining PIN retries; nothing is written when there are none. */
    method DecrPinRetries() returns (r: Status)
      modifies this`retries, this`faults
      ensures old(PinRetries()) == 0 ==> r == Ok(()) && unchanged(this)
      ensures old(PinRetries()) > 0 ==>
                && r == Outcome(old(Next()))
                && PinRetries() == if Applied(old(Next())) then old(PinRetries()) - 1 else old(PinRetries())
      ensures old(faults) == [] ==> faults == []
    {
      var oldValue := PinRetries();
      var newValue := if oldValue == 0 then 0 else oldValue - 1;
      if newValue != oldValue {
        var fault := Tick();
        if Applied(fault) {
          retries := Some(newValue);
        }
        return Outcome(fault);
      }
      return Ok(());
    }

    method ResetPinRetries() returns (r: Status)
      modifies this`retries, this`faults
      ensures r == Outcome(old(Next()))
      ensures PinRetries() == if Applied(old(Next())) then MAX_PIN_RETRIES else old(PinRetries())
      ensures old(faults) == [] ==> faults == []
    {
      var fault := Tick();
      if Applied(fault) {
        retries := None;
      }
      return Outcome(fault);
    }
  }

  // ---------------------------------------------------------------------------------------------
  // PINs on the wire

  /** The bytes before the first zero. */
  function Unpadded(text: seq<bv8>): (pin: seq<bv8>)
    ensures pin <= text && 0 !in pin && (|pin| == |text| || text[|pin|] == 0)
  {
    if text == [] || text[0] == 0 then [] else [text[0]] + Unpadded(text[1..])
  }

  /** The PIN in an encrypted new PIN. */
  function DecryptedPin(secret: Key, newPinEnc: seq<bv8>): Option<seq<bv8>> {
    if |newPinEnc| != PIN_PADDED_LENGTH then None
    else Some(Unpadded(Unsealed(secret, ZeroBlock(), newPinEnc)))
  }

  predicate Acceptable(pin: Option<seq<bv8>>) {
    pin.Some? && MIN_PIN_LENGTH <= |pin.value| < PIN_PADDED_LENGTH
  }

  function PinHash(pin: seq<bv8>): Block {
    Sha.Digest(pin)[..16]
  }

  predicate Authentic(secret: seq<bv8>, message: seq<bv8>, pinAuth: seq<bv8>) {
    |pinAuth| == PIN_AUTH_LENGTH && pinAuth <= Hmac.Hmac256(secret, message)
  }

  /** The key agreement of the platform leads to a secret that authenticates its message. */
  function Agreed(secret: Result<Key, StatusCode>, message: seq<bv8>, pinAuth: seq<bv8>): Result<Key, StatusCode> {
    if secret.Ok? && !Authentic(secret.value, message, pinAuth) then Err(PinAuthInvalid) else secret
  }

  method DecryptPin(secret: Key, newPinEnc: seq<bv8>) returns (pin: Option<seq<bv8>>)
    ensures pin == DecryptedPin(secret, newPinEnc)
  {
    hide Expanded, Unsealed, Cipher.DecryptionKeys;
    if |newPinEnc| != PIN_PADDED_LENGTH {
      return None;
    }
    var encryptionKey := new EncryptionKey(secret);
    var decryptionKey := new DecryptionKey(encryptionKey);
    var text := Unseal(decryptionKey, secret, ZeroBlock(), newPinEnc);
    return Some(Unpadded(text));
  }

  // ---------------------------------------------------------------------------------------------
  // Counting attempts

  /** The number of failed attempts since the last successful one. */
  function Failures(attempts: seq<bool>): (n: nat)
    ensures n <= |attempts|
  {
    if attempts == [] || attempts[|attempts| - 1] then 0 else 1 + Failures(attempts[..|attempts| - 1])
  }

  /** At no time have more than `max` attempts failed in a row. */
  ghost predicate AtMostInRow(attempts: seq<bool>, max: nat) {
    forall n: nat :: n <= |attempts| ==> Failures(attempts[..n]) <= max
  }

  lemma {:induction false} FailuresAreLast(attempts: seq<bool>)
    ensures var n := |attempts| - Failures(attempts);
            (forall k :: n <= k < |attempts| ==> !attempts[k]) && (n > 0 ==> attempts[n - 1])
  {
    if attempts != [] && !attempts[|attempts| - 1] { FailuresAreLast(attempts[..|attempts| - 1]); }
  }

  lemma FailuresNext(attempts: seq<bool>, success: bool)
    ensures Failures(attempts + [success]) == if success then 0 else Failures(attempts) + 1
  {
    assert (attempts + [success])[..|attempts|] == attempts;
  }

  lemma InRowNext(attempts: seq<bool>, success: bool, max: nat)
    requires AtMostInRow(attempts, max) && (success || Failures(attempts) < max)
    ensures AtMostInRow(attempts + [success], max)
  {
    var more := attempts + [success];
    FailuresNext(attempts, success);
    forall n: nat | n <= |more| ensures Failures(more[..n]) <= max {
      if n <= |attempts| {
        assert more[..n] == attempts[..n];
      } else {
        assert more[..n] == more;
      }
    }
  }

  // ---------------------------------------------------------------------------------------------
  // The protocol

  type SecretKey = nat
  type PublicKey = nat

  datatype SubCommand = GetPinRetries | GetKeyAgreement | SetPin | ChangePin | GetPinToken

  datatype Parameters = Parameters(
    pinProtocol: nat,
    subCommand: SubCommand,
    keyAgreement: Option<PublicKey>,
    pinAuth: Option<seq<bv8>>,
    newPinEnc: Option<seq<bv8>>,
    pinHashEnc: Option<seq<bv8>>)

  datatype Response =
    | NoResponse
    | RetriesResponse(retries: byte)
    | KeyResponse(key: PublicKey)
    | TokenResponse(pinToken: seq<bv8>)

  class PinProtocol {
    const store: PersistentStore
    const publicKey: SecretKey -> PublicKey
    const exchange: (SecretKey, PublicKey) -> Result<Key, StatusCode>
    var keyAgreementKey: SecretKey
    var token: Token
    var mismatches: nat
    /** Whether each comparison with the PIN hash succeeded, ever, and since power-on. */
    ghost var attempts: seq<bool>
    ghost var session: seq<bool>

    /**
     The retries make up for the failed attempts since the last success, and the mismatches for those
     since power-on, but for one that used the last retry.
     */
    ghost predicate Accounted()
      reads this, store
    {
      && Failures(attempts) + store.PinRetries() as nat <= 8
      && (store.hash.None? ==> Failures(attempts) == 0 && store.PinRetries() == 8 && mismatches == 0)
      && mismatches <= 3 && AtMostInRow(session, 3) && AtMostInRow(attempts, 8)
      && (Failures(session) <= mismatches || (store.PinRetries() == 0 && Failures(session) <= mismatches + 1 <= 3))
    }

    /** A store whose retries are not all used has no failed attempts that are not accounted for. */
    constructor (store: PersistentStore, publicKey: SecretKey -> PublicKey,
                 exchange: (SecretKey, PublicKey) -> Result<Key, StatusCode>, key: SecretKey, token: Token)
      requires store.PinRetries() <= 8 && (store.hash.None? ==> store.PinRetries() == 8)
      ensures this.store == store && this.publicKey == publicKey && this.exchange == exchange
      ensures keyAgreementKey == key && this.token == token && mismatches == 0
      ensures Accounted() && attempts == session == []
    {
      this.store := store;
      this.publicKey := publicKey;
      this.exchange := exchange;
      this.keyAgreementKey := key;
      this.token := token;
      this.mismatches := 0;
      this.attempts := [];
      this.session := [];
    }

    /** Power is cut and comes back: what is not in the persistent store is made anew. */
    method PowerCycle(key: SecretKey, newToken: Token)
      requires Accounted()
      modifies this`keyAgreementKey, this`token, this`mismatches, this`session
      ensures Accounted() && session == []
      ensures keyAgreementKey == key && token == newToken && mismatches == 0
    {
      keyAgreementKey := key;
      token := newToken;
      mismatches := 0;
      session := [];
    }

    /** Records a comparison with the PIN hash. */
    ghost method Record(success: bool)
      modifies this`attempts, this`session
      ensures attempts == old(attempts) + [success] && session == old(session) + [success]
    {
      attempts := attempts + [success];
      session := session + [success];
    }

    /**
     Decrypts a PIN hash and compares it to the stored one. The retries are used up before the comparison
     and given back when it succeeds.
     */
    method VerifyPinHashEnc(secret: Key, pinHashEnc: seq<bv8>, newKey: SecretKey) returns (r: Status)
      requires Accounted() && store.PinRetries() > 0
      modifies this`keyAgreementKey, this`mismatches, this`attempts, this`session, store
      ensures Accounted() && store.hash == old(store.hash)
      ensures attempts == old(attempts)
              || (store.hash.Some? && attempts == old(attempts) + [Matches(secret, pinHashEnc, store.hash.value)])
      ensures session == old(session) + attempts[|old(attempts)|..]
      ensures r.Ok? ==> Verifies(secret, pinHashEnc, store.hash)
      ensures r.Ok? ==> store.PinRetries() == 8 && mismatches == 0
      ensures old(store.faults) == [] ==>
                && store.faults == []
                && r == Verified(old(store.hash), old(store.PinRetries()), old(mismatches), secret, pinHashEnc)
      ensures old(store.faults) == [] && old(mismatches) < 3 && old(store.hash).Some? && r.Err? ==>
                store.PinRetries() == old(store.PinRetries()) - 1
    {
      hide Expanded, Unsealed, Cipher.DecryptionKeys, Failures, AtMostInRow;
      if store.hash.None? {
        return Err(PinRequired);
      }
      var pinHash := store.hash.value;
      if mismatches >= 3 {
        return Err(PinAuthBlocked);
      }
      r := store.DecrPinRetries();
      if r.Err? {
        return;
      }
      if |pinHashEnc| != PIN_AUTH_LENGTH {
        return Err(PinInvalid);
      }
      var encryptionKey := new EncryptionKey(secret);
      var decryptionKey := new DecryptionKey(encryptionKey);
      var block := Unseal(decryptionKey, secret, ZeroBlock(), pinHashEnc);
      ghost var success := pinHash == block;
      InRowNext(session, success, 3);
      InRowNext(attempts, success, 8);
      FailuresNext(attempts, success);
      FailuresNext(session, success);
      Record(success);
      if pinHash != block {
        keyAgreementKey := newKey;
        if store.PinRetries() == 0 {
          return Err(PinBlocked);
        }
        mismatches := mismatches + 1;
        if mismatches >= 3 {
          return Err(PinAuthBlocked);
        }
        return Err(PinInvalid);
      }
      r := store.ResetPinRetries();
      if r.Err? {
        return;
      }
      mismatches := 0;
    }

    /** The secret that the platform and the authenticator agree on. */
    function Secret(key: PublicKey): Result<Key, StatusCode>
      reads this`keyAgreementKey
    {
      exchange(keyAgreementKey, key)
    }

    /** The secret for the key that a platform sent. */
    function Offered(key: Option<PublicKey>): Result<Key, StatusCode>
      reads this`keyAgreementKey
    {
      if key.None? then Err(MissingParameter) else Secret(key.value)
    }

    /** Agrees on a secret with a platform whose message is authentic. */
    method ExchangeDecryptionKey(key: PublicKey, pinAuth: seq<bv8>, message: seq<bv8>)
      returns (r: Result<Key, StatusCode>)
      ensures r == Agreed(Secret(key), message, pinAuth)
    {
      hide Hmac.Hmac256;
      var secret := Secret(key);
      if secret.Err? {
        return secret;
      }
      if |pinAuth| != PIN_AUTH_LENGTH {
        return Err(PinAuthInvalid);
      }
      var authentic := Hmac.VerifyFirst(secret.value, message, pinAuth);
      return if authentic then secret else Err(PinAuthInvalid);
    }

    /** Stores the hash of a new PIN, if it satisfies the policy. */
    method CheckAndStoreNewPin(secret: Key, newPinEnc: seq<bv8>) returns (r: Status)
      modifies store`hash, store`faults
      ensures var pin := DecryptedPin(secret, newPinEnc);
              if !Acceptable(pin) then r == Err(PinPolicyViolation) && unchanged(store)
              else r == Outcome(old(store.Next()))
                   && store.hash == if Applied(old(store.Next())) then Some(PinHash(pin.value)) else old(store.hash)
      ensures old(store.faults) == [] ==> store.faults == []
    {
      hide DecryptedPin, Sha.Digest;
      var pin := DecryptPin(secret, newPinEnc);
      if pin.None? {
        return Err(PinPolicyViolation);
      }
      if |pin.value| < MIN_PIN_LENGTH || |pin.value| >= PIN_PADDED_LENGTH {
        return Err(PinPolicyViolation);
      }
      var digest := Sha.Hash(pin.value);
      r := store.SetPinHash(digest[..16]);
    }

    /** Sets the first PIN. */
    method ProcessSetPin(key: PublicKey, pinAuth: seq<bv8>, newPinEnc: seq<bv8>) returns (r: Status)
      requires Accounted()
      modifies store
      ensures Accounted()
      ensures old(store.hash).Some? ==> r == Err(PinAuthInvalid) && unchanged(store)
      ensures r.Ok? ==>
                && Agreed(Secret(key), newPinEnc, pinAuth).Ok? && store.PinRetries() == 8
                && var pin := DecryptedPin(Secret(key).value, newPinEnc);
                   Acceptable(pin) && store.hash == Some(PinHash(pin.value))
      ensures old(store.faults) == [] && old(store.hash).None? && r.Err? ==>
                && unchanged(store)
                && if Agreed(Secret(key), newPinEnc, pinAuth).Err?
                  then r.error == Agreed(Secret(key), newPinEnc, pinAuth).error
                   else !Acceptable(DecryptedPin(Secret(key).value, newPinEnc)) && r.error == PinPolicyViolation
      ensures old(store.faults) == [] ==> store.faults == []
    {
      hide DecryptedPin, Sha.Digest, Hmac.Hmac256, Failures, AtMostInRow;
      if store.hash.Some? {
        return Err(PinAuthInvalid);
      }
      var secret := ExchangeDecryptionKey(key, pinAuth, newPinEnc);
      if secret.Err? {
        return Err(secret.error);
      }
      r := CheckAndStoreNewPin(secret.value, newPinEnc);
      if r.Err? {
        return;
      }
      r := store.ResetPinRetries();
    }

    /** Replaces the PIN. */
    method ProcessChangePin(key: PublicKey, pinAuth: seq<bv8>, newPinEnc: seq<bv8>, pinHashEnc: seq<bv8>,
                            newKey: SecretKey, newToken: Token)
      returns (r: Status)
      requires Accounted()
      modifies this`keyAgreementKey, this`token, this`mismatches, this`attempts, this`session, store
      ensures Accounted()
      ensures old(store.PinRetries()) == 0 ==> r == Err(PinBlocked) && unchanged(this) && unchanged(store)
      ensures r.Ok? ==>
                && Agreed(old(Secret(key)), newPinEnc + pinHashEnc, pinAuth).Ok? && token == newToken
                && var secret := old(Secret(key)).value;
                   && Verifies(secret, pinHashEnc, old(store.hash)) && store.PinRetries() == 8
                   && Acceptable(DecryptedPin(secret, newPinEnc))
                   && store.hash == Some(PinHash(DecryptedPin(secret, newPinEnc).value))
      ensures old(store.faults) == [] && old(store.PinRetries()) > 0 ==>
                r == Changed(old(store.hash), old(store.PinRetries()), old(mismatches),
                             Agreed(old(Secret(key)), newPinEnc + pinHashEnc, pinAuth), newPinEnc, pinHashEnc)
      ensures attempts == old(attempts) || (|attempts| == |old(attempts)| + 1 && old(attempts) <= attempts)
      ensures session == old(session) + attempts[|old(attempts)|..]
    {
      hide DecryptedPin, Sha.Digest, Hmac.Hmac256, Failures, AtMostInRow, Unsealed, Verified, Matches;
      if store.PinRetries() == 0 {
        return Err(PinBlocked);
      }
      var secret := ExchangeDecryptionKey(key, pinAuth, newPinEnc + pinHashEnc);
      if secret.Err? {
        return Err(secret.error);
      }
      r := VerifyPinHashEnc(secret.value, pinHashEnc, newKey);
      if r.Err? {
        return;
      }
      r := CheckAndStoreNewPin(secret.value, newPinEnc);
      if r.Err? {
        return;
      }
      token := newToken;
    }

    /** Hands out the PIN token, encrypted, to a platform that knows the PIN. */
    method ProcessGetPinToken(key: PublicKey, pinHashEnc: seq<bv8>, newKey: SecretKey)
      returns (r: Result<seq<bv8>, StatusCode>)
      requires Accounted()
      modifies this`keyAgreementKey, this`mismatches, this`attempts, this`session, store
      ensures Accounted() && store.hash == old(store.hash)
      ensures old(store.PinRetries()) == 0 ==> r == Err(PinBlocked) && unchanged(this) && unchanged(store)
      ensures r.Ok? ==>
                && old(Secret(key)).Ok? && Verifies(old(Secret(key)).value, pinHashEnc, store.hash)
                  && store.PinRetries() == 8
                && r.value == Sealed(old(Secret(key)).value, ZeroBlock(), token)
      ensures old(store.faults) == [] && old(store.PinRetries()) > 0 && old(Secret(key)).Ok? ==>
                && store.faults == []
                && var verified := Verified(old(store.hash), old(store.PinRetries()), old(mismatches),
                                            old(Secret(key)).value, pinHashEnc);
                   if verified.Ok? then r.Ok? else r == Err(verified.error)
      ensures old(store.PinRetries()) > 0 && old(Secret(key)).Err? ==> r == Err(old(Secret(key)).error)
      ensures attempts == old(attempts) || (|attempts| == |old(attempts)| + 1 && old(attempts) <= attempts)
      ensures session == old(session) + attempts[|old(attempts)|..]
    {
      hide Failures, AtMostInRow, Unsealed, Sealed, Verified, Matches, Expanded, ZeroBlock;
      if store.PinRetries() == 0 {
        return Err(PinBlocked);
      }
      var secret := Secret(key);
      if secret.Err? {
        return Err(secret.error);
      }
      var s := VerifyPinHashEnc(secret.value, pinHashEnc, newKey);
      if s.Err? {
        return Err(s.error);
      }
      var encryptionKey := new EncryptionKey(secret.value);
      var pinToken := Seal(encryptionKey, secret.value, ZeroBlock(), token);
      return Ok(pinToken);
    }

    /** Processes a client PIN command. */
    method ProcessSubcommand(params: Parameters, newKey: SecretKey, newToken: Token)
      returns (r: Result<Response, StatusCode>)
      requires Accounted()
      modifies this`keyAgreementKey, this`token, this`mismatches, this`attempts, this`session, store
      ensures Accounted()
      ensures old(store.PinRetries()) == 0 ==>
                && store.PinRetries() == 0
                && (params.subCommand.SetPin? || params.subCommand.ChangePin? || params.subCommand.GetPinToken? ==>
                      r.Err?)
      ensures old(store.faults) == [] ==>
                r == Answer(old(store.hash), old(store.PinRetries()), old(mismatches),
                            old(Offered(params.keyAgreement)),
                            publicKey(old(keyAgreementKey)), old(token), params)
      ensures attempts == old(attempts) || (|attempts| == |old(attempts)| + 1 && old(attempts) <= attempts)
      ensures session == old(session) + attempts[|old(attempts)|..]
    {
      hide DecryptedPin, Sha.Digest, Hmac.Hmac256, Failures, AtMostInRow, Unsealed, Sealed, Verified, Matches, Expanded,
           ZeroBlock;
      if params.pinProtocol != 1 {
        return Err(PinAuthInvalid);
      }
      match params.subCommand {
        case GetPinRetries =>
          return Ok(RetriesResponse(store.PinRetries()));
        case GetKeyAgreement =>
          return Ok(KeyResponse(publicKey(keyAgreementKey)));
        case SetPin =>
          if params.keyAgreement.None? || params.pinAuth.None? || params.newPinEnc.None? {
            return Err(MissingParameter);
          }
          var s := ProcessSetPin(params.keyAgreement.value, params.pinAuth.value, params.newPinEnc.value);
          return if s.Ok? then Ok(NoResponse) else Err(s.error);
        case ChangePin =>
          if params.keyAgreement.None? || params.pinAuth.None? || params.newPinEnc.None? || params.pinHashEnc.None? {
            return Err(MissingParameter);
          }
          var s := ProcessChangePin(params.keyAgreement.value, params.pinAuth.value, params.newPinEnc.value,
                                    params.pinHashEnc.value, newKey, newToken);
          return if s.Ok? then Ok(NoResponse) else Err(s.error);
        case GetPinToken =>
          if params.keyAgreement.None? || params.pinHashEnc.None? {
            return Err(MissingParameter);
          }
          var s := ProcessGetPinToken(params.keyAgreement.value, params.pinHashEnc.value, newKey);
          return if s.Ok? then Ok(TokenResponse(s.value)) else Err(s.error);
      }
    }
  }

  /** The result of a change of the PIN whose writes do not fail, when retries remain. */
  function Changed(hash: Option<Block>, retries: byte, mismatches: nat, agreed: Result<Key, StatusCode>,
                   newPinEnc: seq<bv8>, pinHashEnc: seq<bv8>): Status
  {
    if agreed.Err? then Err(agreed.error)
    else if Verified(hash, retries, mismatches, agreed.value, pinHashEnc).Err? then
      Verified(hash, retries, mismatches, agreed.value, pinHashEnc)
    else if !Acceptable(DecryptedPin(agreed.value, newPinEnc)) then Err(PinPolicyViolation)
    else Ok(())
  }

  /** The response to a command whose writes do not fail. */
  function Answer(hash: Option<Block>, retries: byte, mismatches: nat, secret: Result<Key, StatusCode>,
                  publicKey: PublicKey, token: Token, params: Parameters): Result<Response, StatusCode>
  {
    if params.pinProtocol != 1 then Err(PinAuthInvalid)
    else
      match params.subCommand
      case GetPinRetries => Ok(RetriesResponse(retries))
      case GetKeyAgreement => Ok(KeyResponse(publicKey))
      case SetPin =>
        if params.keyAgreement.None? || params.pinAuth.None? || params.newPinEnc.None? then Err(MissingParameter)
        else if hash.Some? then Err(PinAuthInvalid)
        else
          var agreed := Agreed(secret, params.newPinEnc.value, params.pinAuth.value);
          if agreed.Err? then Err(agreed.error)
          else if !Acceptable(DecryptedPin(agreed.value, params.newPinEnc.value)) then Err(PinPolicyViolation)
          else Ok(NoResponse)
      case ChangePin =>
        if params.keyAgreement.None? || params.pinAuth.None? || params.newPinEnc.None? || params.pinHashEnc.None? then
          Err(MissingParameter)
        else if retries == 0 then Err(PinBlocked)
        else
          var agreed := Agreed(secret, params.newPinEnc.value + params.pinHashEnc.value, params.pinAuth.value);
          var changed := Changed(hash, retries, mismatches, agreed, params.newPinEnc.value, params.pinHashEnc.value);
          if changed.Err? then Err(changed.error) else Ok(NoResponse)
      case GetPinToken =>
        if params.keyAgreement.None? || params.pinHashEnc.None? then Err(MissingParameter)
        else if retries == 0 then Err(PinBlocked)
        else if secret.Err? then Err(secret.error)
        else
          var verified := Verified(hash, retries, mismatches, secret.value, params.pinHashEnc.value);
          if verified.Err? then Err(verified.error) else Ok(TokenResponse(Sealed(secret.value, ZeroBlock(), token)))
  }

  /** A verification that was successful. */
  predicate Verifies(secret: Key, pinHashEnc: seq<bv8>, hash: Option<Block>) {
    hash.Some? && Matches(secret, pinHashEnc, hash.value)
  }

  predicate Matches(secret: Key, pinHashEnc: seq<bv8>, pinHash: Block) {
    |pinHashEnc| == PIN_AUTH_LENGTH && Unsealed(secret, ZeroBlock(), pinHashEnc) == pinHash
  }

  /** The result of a verification whose writes do not fail. */
  function Verified(hash: Option<Block>, retries: byte, mismatches: nat, secret: Key, pinHashEnc: seq<bv8>): Status {
    if hash.None? then Err(PinRequired)
    else if mismatches >= 3 then Err(PinAuthBlocked)
    else if |pinHashEnc| != PIN_AUTH_LENGTH then Err(PinInvalid)
    else if Matches(secret, pinHashEnc, hash.value) then Ok(())
    else if retries <= 1 then Err(PinBlocked)
    else if mismatches == 2 then Err(PinAuthBlocked)
    else Err(PinInvalid)
  }

  // ---------------------------------------------------------------------------------------------
  // The platform

  function PaddedPin(pin: seq<bv8>): (text: seq<bv8>)
    requires |pin| < PIN_PADDED_LENGTH
    ensures |text| == PIN_PADDED_LENGTH
  {
    pin + Sha.Zeros(PIN_PADDED_LENGTH - |pin|)
  }

  lemma {:induction false} UnpaddedPadding(pin: seq<bv8>, n: nat)
    requires 0 !in pin && n > 0
    ensures Unpadded(pin + Sha.Zeros(n)) == pin
  {
    if pin != [] {
      UnpaddedPadding(pin[1..], n);
      assert (pin + Sha.Zeros(n))[1..] == pin[1..] + Sha.Zeros(n);
    }
  }

  /** The new PIN that the platform sends is read back. */
  lemma NewPinReads(secret: Key, text: seq<bv8>)
    requires 0 !in text && |text| < PIN_PADDED_LENGTH
    ensures DecryptedPin(secret, Sealed(secret, ZeroBlock(), PaddedPin(text))) == Some(text)
  {
    hide Sealed, Unsealed, ZeroBlock;
    SealTrips(secret, ZeroBlock(), PaddedPin(text));
    UnpaddedPadding(text, PIN_PADDED_LENGTH - |text|);
  }

  /** The PIN hash that the platform sends is read back. */
  lemma PinHashReads(secret: Key, hash: Block)
    ensures Matches(secret, Sealed(secret, ZeroBlock(), hash), hash)
  {
    hide Sealed, Unsealed, ZeroBlock;
    SealTrips(secret, ZeroBlock(), hash);
  }

  /** Whoever sets a PIN on an authenticator without one gets its PIN token with it. */
  method SetPinAndGetToken(pin: PinProtocol, key: PublicKey, text: seq<bv8>, newKey: SecretKey)
    returns (s: Status, r: Result<seq<bv8>, StatusCode>)
    requires pin.Accounted() && pin.store.hash.None? && pin.store.faults == [] && pin.Secret(key).Ok?
    requires 0 !in text && MIN_PIN_LENGTH <= |text| < PIN_PADDED_LENGTH
    modifies pin, pin.store
    ensures s.Ok? && r.Ok? && |r.value| == PIN_TOKEN_LENGTH
    ensures Unsealed(old(pin.Secret(key)).value, ZeroBlock(), r.value) == pin.token == old(pin.token)
  {
    hide Sealed, Unsealed, Sha.Digest, ZeroBlock, Hmac.Hmac256, DecryptedPin, Matches, Failures, AtMostInRow, PaddedPin;
    var secret := pin.Secret(key).value;
    NewPinReads(secret, text);
    PinHashReads(secret, PinHash(text));
    var newPinEnc := Sealed(secret, ZeroBlock(), PaddedPin(text));
    s := pin.ProcessSetPin(key, Hmac.Hmac256(secret, newPinEnc)[..16], newPinEnc);
    r := pin.ProcessGetPinToken(key, Sealed(secret, ZeroBlock(), PinHash(text)), newKey);
    SealTrips(secret, ZeroBlock(), pin.token);
  }

  // ---------------------------------------------------------------------------------------------
  // Runs

  /** A command with the randomness it may use and the writes that fail during it, or a power cycle. */
  datatype Event =
    | Command(params: Parameters, newKey: SecretKey, newToken: Token, faults: seq<Fault>)
    | PowerCut(newKey: SecretKey, newToken: Token)

  /** A command that only succeeds for who knows the PIN, or sets it. */
  predicate UsesPin(event: Event) {
    event.Command? && (event.params.subCommand.SetPin? || event.params.subCommand.ChangePin?
                       || event.params.subCommand.GetPinToken?)
  }

  function Flat(sessions: seq<seq<bool>>): seq<bool> {
    if sessions == [] then [] else Flat(sessions[..|sessions| - 1]) + sessions[|sessions| - 1]
  }

  /**
   Accounting of PIN attempts. Whatever the commands are, whatever writes fail and whenever power is cut,
   the PIN hash is compared at most 8 times in a row without success, at most 3 times in a row between two
   power cuts, and the failed attempts since the last success and the remaining retries are never more than
   8. Once no retries remain, none ever do, and no command that needs the PIN succeeds.
   */
  method Run(pin: PinProtocol, events: seq<Event>)
    returns (results: seq<Result<Response, StatusCode>>, ghost retries: seq<byte>, ghost sessions: seq<seq<bool>>)
    requires pin.Accounted() && pin.attempts == pin.session == []
    modifies pin, pin.store
    ensures |results| == |retries| == |events|
    ensures pin.Accounted() && Flat(sessions) == pin.attempts
    ensures AtMostInRow(pin.attempts, 8) && Failures(pin.attempts) + pin.store.PinRetries() as nat <= 8
    ensures forall i :: 0 <= i < |sessions| ==> AtMostInRow(sessions[i], 3)
    ensures |sessions| == 1 + PowerCuts(events)
    ensures forall i, j :: 0 <= i < j < |events| && retries[i] == 0 ==>
              retries[j] == 0 && (UsesPin(events[j]) ==> results[j].Err?)
  {
    hide Failures, AtMostInRow, Flat, PowerCuts;
    results, retries, sessions := [], [], [[]];
    FlatNew([]);
    PowerCutsNext(events, 0);
    for n := 0 to |events|
      invariant |results| == |retries| == n
      invariant pin.Accounted() && Tracked(sessions, pin.attempts, pin.session)
      invariant |sessions| == 1 + PowerCuts(events[..n])
      invariant forall i :: 0 <= i < n && retries[i] == 0 ==> pin.store.PinRetries() == 0
      invariant forall i, j :: 0 <= i < j < n && retries[i] == 0 ==>
                  retries[j] == 0 && (UsesPin(events[j]) ==> results[j].Err?)
    {
      PowerCutsNext(events, n);
      var r;
      r, sessions := Process(pin, events[n], sessions);
      results := results + [r];
      retries := retries + [pin.store.PinRetries()];
    }
    assert events[..|events|] == events;
  }

  /** The sessions so far are within their limit, and make up all attempts; the last one is under way. */
  ghost predicate Tracked(sessions: seq<seq<bool>>, attempts: seq<bool>, session: seq<bool>) {
    && sessions != [] && Flat(sessions) == attempts && sessions[|sessions| - 1] == session
    && forall i :: 0 <= i < |sessions| ==> AtMostInRow(sessions[i], 3)
  }

  method Process(pin: PinProtocol, event: Event, ghost sessions: seq<seq<bool>>)
    returns (r: Result<Response, StatusCode>, ghost sessions': seq<seq<bool>>)
    requires pin.Accounted() && Tracked(sessions, pin.attempts, pin.session)
    modifies pin, pin.store
    ensures pin.Accounted() && Tracked(sessions', pin.attempts, pin.session)
    ensures |sessions'| == |sessions| + if event.PowerCut? then 1 else 0
    ensures old(pin.store.PinRetries()) == 0 ==> pin.store.PinRetries() == 0 && (UsesPin(event) ==> r.Err?)
  {
    hide Failures, AtMostInRow, Flat;
    match event {
      case Command(params, newKey, newToken, faults) =>
        pin.store.Inject(faults);
        ghost var attempts := pin.attempts;
        r := pin.ProcessSubcommand(params, newKey, newToken);
        FlatExtended(sessions, pin.attempts[|attempts|..]);
        sessions' := sessions[..|sessions| - 1] + [pin.session];
      case PowerCut(newKey, newToken) =>
        pin.PowerCycle(newKey, newToken);
        FlatNew(sessions);
        sessions' := sessions + [[]];
        r := Ok(NoResponse);
    }
  }

  function PowerCuts(events: seq<Event>): nat {
    if events == [] then 0 else PowerCuts(events[..|events| - 1]) + if events[|events| - 1].PowerCut? then 1 else 0
  }

  lemma PowerCutsNext(events: seq<Event>, n: nat)
    ensures n < |events| ==> PowerCuts(events[..n + 1]) == PowerCuts(events[..n]) + if events[n].PowerCut? then 1 else 0
    ensures PowerCuts(events[..0]) == 0
  {
    assert n < |events| ==> events[..n + 1][..n] == events[..n];
  }

  lemma FlatNew(sessions: seq<seq<bool>>)
    ensures Flat(sessions + [[]]) == Flat(sessions) && Flat([[]]) == [] && AtMostInRow([], 3)
  {
    assert (sessions + [[]])[..|sessions|] == sessions;
  }

  /** Attempts in the last session are the last attempts. */
  lemma FlatExtended(sessions: seq<seq<bool>>, more: seq<bool>)
    requires sessions != []
    ensures var n := |sessions| - 1; Flat(sessions[..n] + [sessions[n] + more]) == Flat(sessions) + more
  {
    var n := |sessions| - 1;
    var extended := sessions[..n] + [sessions[n] + more];
    assert extended[..n] == sessions[..n] && extended[n] == sessions[n] + more;
  }
}
