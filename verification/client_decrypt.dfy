/** `test/testScripts/recordRetrieval/decryptRetrievedRecordScript.js`: the client that unwraps a
    record's AES key with its own private key and decrypts the record's fields. */
module ClientDecrypt {
  import opened Wrappers
  import opened Values
  import opened Hex
  import Text
  import Json
  import Base64
  import AesUtils
  import RsaUtils
  import FieldCrypto
  import CryptoHelper
  import ClientPayload
  import ClientRetrieval

  /** Why the script stops with an exception. */
  datatype ScriptError =
    | InvalidFormat            // 'Invalid encrypted field format'
    | Unsupported              // 'Unsupported encrypted field type'
    | Decipher(AesUtils.CryptoError)
    | Unwrap(message: string)  // privateDecrypt throws
    | KeyNotAString            // Buffer.from(undefined, 'base64') throws a TypeError
    | NotJson                  // JSON.parse throws a SyntaxError
    | NullRecord               // `null.record` throws a TypeError

  /** `decryptAESKey(encryptedAESKey)`: base64-decodes, unwraps with OAEP/SHA-256 and renders the
      raw key bytes as hex. */
  function DecryptAESKey(rsa: RsaUtils.Rsa, privateKey: string, encryptedAESKey: string): (r: Result<string, ScriptError>)
    ensures r.Success? <==> rsa.privateDecrypt(privateKey, RsaUtils.OaepSha256, Base64.Decode(encryptedAESKey)).Success?
    ensures r.Success? ==> IsLowerHex(r.value)
    ensures r.Success? ==> Decode(r.value) == rsa.privateDecrypt(privateKey, RsaUtils.OaepSha256, Base64.Decode(encryptedAESKey)).value
  {
    match rsa.privateDecrypt(privateKey, RsaUtils.OaepSha256, Base64.Decode(encryptedAESKey))
    case Failure(e) => Failure(Unwrap(e))
    case Success(p) =>
      DecodeEncode(p);
      Success(Encode(p))
  }

  /** Unwrapping inverts the scripts' wrapping for a key pair the scripts generate: the hex key
      comes back as the same hex text. */
  lemma DecryptAESKeyInvertsWrap(rsa: RsaUtils.Rsa, seed: nat, aesKey: string)
    requires RsaUtils.Sound(rsa) && FieldCrypto.KeyOk(aesKey) && IsLowerHex(aesKey) && |aesKey| % 2 == 0
    ensures var kp := rsa.generate(ClientPayload.ClientKeyOptions, seed);
            && ClientPayload.WrapKey(rsa, aesKey, kp.publicKey).Success?
            && DecryptAESKey(rsa, kp.privateKey, ClientPayload.WrapKey(rsa, aesKey, kp.publicKey).value) == Success(aesKey)
  {
    var kp := rsa.generate(ClientPayload.ClientKeyOptions, seed);
    ClientPayload.WrapGeneratedKey(rsa, aesKey, seed);
    var c := rsa.publicEncrypt(kp.publicKey, RsaUtils.OaepSha256, Decode(aesKey)).value;
    assert RsaUtils.UnwrapsOwn(rsa);
    assert rsa.privateDecrypt(kp.privateKey, RsaUtils.OaepSha256, c) == Success(Decode(aesKey));
    EncodeDecode(aesKey);
  }

  /** A key wrapped for a different key pair (the scripts wrap it for the backend's) does not
      unwrap with this script's private key. */
  lemma OtherPairKeyFails(rsa: RsaUtils.Rsa, o: RsaUtils.KeyGenOptions, seed: nat, ownSeed: nat, aesKey: string)
    requires RsaUtils.Sound(rsa) && seed != ownSeed
    requires ClientPayload.WrapKey(rsa, aesKey, rsa.generate(o, seed).publicKey).Success?
    ensures DecryptAESKey(rsa, rsa.generate(ClientPayload.ClientKeyOptions, ownSeed).privateKey,
                          ClientPayload.WrapKey(rsa, aesKey, rsa.generate(o, seed).publicKey).value).Failure?
  {
    assert RsaUtils.RejectsOthers(rsa);
  }

  /** `decryptWithAES(encryptedData, aesKey)`: the format check, then the backend's decryption. */
  function DecryptWithAES(aes: AesUtils.Aes, data: Value, aesKey: string): (r: Result<string, ScriptError>)
    ensures !data.Str? || ':' !in data.s ==> r == Failure(InvalidFormat)
    ensures data.Str? && ':' in data.s ==> (r.Success? <==> AesUtils.DecryptAES(aes, data.s, aesKey).Success?)
    ensures r.Success? ==> data.Str? && r.value == AesUtils.DecryptAES(aes, data.s, aesKey).value
  {
    if !data.Str? || ':' !in data.s then Failure(InvalidFormat)
    else
      match AesUtils.DecryptAES(aes, data.s, aesKey)
      case Failure(e) => Failure(Decipher(e))
      case Success(p) => Success(p)
  }

  /** `data.map(item => decryptWithAES(item, key))`: the first failing item aborts. */
  function DecryptItems(aes: AesUtils.Aes, items: seq<string>, aesKey: string): (r: Result<seq<string>, ScriptError>)
    ensures r.Success? <==> forall i | 0 <= i < |items| :: DecryptWithAES(aes, Str(items[i]), aesKey).Success?
    ensures r.Success? ==> |r.value| == |items|
    ensures r.Success? ==> forall i | 0 <= i < |items| :: DecryptWithAES(aes, Str(items[i]), aesKey) == Success(r.value[i])
  {
    if items == [] then Success([])
    else
      var first :- DecryptWithAES(aes, Str(items[0]), aesKey);
      var rest :- DecryptItems(aes, items[1..], aesKey);
      assert forall i | 1 <= i < |items| :: items[i] == items[1..][i - 1];
      Success([first] + rest)
  }

  /** `decryptField(data)`: arrays element-wise, strings directly, anything else (including
      `undefined`) rejected. */
  function DecryptField(aes: AesUtils.Aes, data: Option<Value>, aesKey: string): (r: Result<Value, ScriptError>)
    ensures data.None? || !(data.value.Str? || data.value.StrArray?) ==> r == Failure(Unsupported)
    ensures data.Some? && data.value.Str? ==>
              (r.Success? <==> DecryptWithAES(aes, data.value, aesKey).Success?)
              && (r.Success? ==> r.value == Str(DecryptWithAES(aes, data.value, aesKey).value))
    ensures data.Some? && data.value.StrArray? ==>
              (r.Success? <==> DecryptItems(aes, data.value.items, aesKey).Success?)
              && (r.Success? ==> r.value == StrArray(DecryptItems(aes, data.value.items, aesKey).value))
  {
    if data.None? then Failure(Unsupported)
    else
      match data.value
      case StrArray(items) =>
        var xs :- DecryptItems(aes, items, aesKey);
        Success(StrArray(xs))
      case Str(_) =>
        var p :- DecryptWithAES(aes, data.value, aesKey);
        Success(Str(p))
      case _ => Failure(Unsupported)
  }

  /** `String(v)` for the values `decryptField` returns: an array joins its items with commas. */
  function AsString(v: Value): string
    requires v.Str? || v.StrArray?
  {
    match v
    case Str(s) => s
    case StrArray(xs) => if xs == [] then "" else Text.Join(xs, ',')
  }

  /** `JSON.parse(decryptField(record.medications))`; only string arrays are read back. */
  function ParseMedications(v: Value): (r: Result<seq<string>, ScriptError>)
    requires v.Str? || v.StrArray?
    ensures r.Success? <==> Json.Parse(AsString(v)).Some?
  {
    match Json.Parse(AsString(v))
    case None => Failure(NotJson)
    case Some(xs) => Success(xs)
  }

  function Property(record: Value, name: string): Option<Value> {
    if record.Obj? && name in record.fields then Some(record.fields[name]) else None
  }

  /** The object `decryptRecord` prints. */
  datatype DecryptedRecord = DecryptedRecord(
    id: Option<Value>,
    patient: Option<Value>,
    diagnosis: Value,
    notes: Value,
    medications: seq<string>,
    visitDate: Option<Value>)

  /** `decryptRecord(record)`: unwrap the key, then decrypt diagnosis, notes and medications in
      that order; `_id`, `patient` and `visitDate` are copied. */
  function DecryptRecord(aes: AesUtils.Aes, rsa: RsaUtils.Rsa, privateKey: string, record: Value): (r: Result<DecryptedRecord, ScriptError>)
    ensures !(Property(record, "encryptedAesKey").Some? && Property(record, "encryptedAesKey").value.Str?) ==> r == Failure(KeyNotAString)
    ensures r.Success? ==> && r.value.id == Property(record, "_id")
                           && r.value.patient == Property(record, "patient")
                           && r.value.visitDate == Property(record, "visitDate")
    ensures r.Success? ==>
              var key := DecryptAESKey(rsa, privateKey, Property(record, "encryptedAesKey").value.s);
              && key.Success?
              && DecryptField(aes, Property(record, "diagnosis"), key.value) == Success(r.value.diagnosis)
              && DecryptField(aes, Property(record, "notes"), key.value) == Success(r.value.notes)
              && DecryptField(aes, Property(record, "medications"), key.value).Success?
              && ParseMedications(DecryptField(aes, Property(record, "medications"), key.value).value) == Success(r.value.medications)
  {
    var wrapped := Property(record, "encryptedAesKey");
    if wrapped.None? || !wrapped.value.Str? then Failure(KeyNotAString)
    else
      var key :- DecryptAESKey(rsa, privateKey, wrapped.value.s);
      var diagnosis :- DecryptField(aes, Property(record, "diagnosis"), key);
      var notes :- DecryptField(aes, Property(record, "notes"), key);
      var medications :- DecryptField(aes, Property(record, "medications"), key);
      var list :- ParseMedications(medications);
      Success(DecryptedRecord(Property(record, "_id"), Property(record, "patient"), diagnosis, notes, list, Property(record, "visitDate")))
  }

  /** `jsonData.record ?? jsonData`: the saved response's `record`, unless it is missing or null. */
  function SelectRecord(jsonData: Value): (r: Result<Value, ScriptError>)
    ensures jsonData == Null <==> r == Failure(NullRecord)
    ensures jsonData != Null && Property(jsonData, "record").Some? && Property(jsonData, "record").value != Null ==>
              r == Success(jsonData.fields["record"])
    ensures jsonData != Null && (Property(jsonData, "record").None? || Property(jsonData, "record").value == Null) ==>
              r == Success(jsonData)
  {
    if jsonData == Null then Failure(NullRecord)
    else
      match Property(jsonData, "record")
      case Some(v) => if v != Null then Success(v) else Success(jsonData)
      case None => Success(jsonData)
  }

  /** The JSON text of a list reads back as the list. */
  lemma ParseMedicationsStringify(xs: seq<string>)
    ensures ParseMedications(Str(Json.Stringify(xs))) == Success(xs)
  {
    Json.ParseStringify(xs);
  }

  /** A field holding an envelope of `text` made under the key decrypts to `text`. */
  lemma FieldDecrypts(aes: AesUtils.Aes, text: string, aesKey: string, iv: AesUtils.Iv)
    requires AesUtils.Sound(aes) && FieldCrypto.KeyOk(aesKey)
    ensures AesUtils.EncryptAES(aes, text, aesKey, iv).Success?
    ensures DecryptField(aes, Some(Str(AesUtils.EncryptAES(aes, text, aesKey, iv).value)), aesKey) == Success(Str(text))
  {
    var e := AesUtils.EncryptAES(aes, text, aesKey, iv).value;
    assert e[2 * AesUtils.IvBytes] == ':';
    AesUtils.DecryptEncrypt(aes, text, aesKey, iv);
  }

  /** The record a script's payload becomes once it also carries its key, wrapped for the key
      pair `kp`, and an `_id`. */
  function WithKey(payload: Body, wrapped: string, id: Value): Value {
    Obj(payload["encryptedAesKey" := Str(wrapped)]["_id" := id])
  }

  /** `decryptRecord` on a record whose parts each decrypt. */
  lemma DecryptRecordOf(aes: AesUtils.Aes, rsa: RsaUtils.Rsa, privateKey: string, record: Value, wrapped: string, aesKey: string,
                        diagnosis: string, notes: string, medications: seq<string>)
    requires Property(record, "encryptedAesKey") == Some(Str(wrapped))
    requires DecryptAESKey(rsa, privateKey, wrapped) == Success(aesKey)
    requires DecryptField(aes, Property(record, "diagnosis"), aesKey) == Success(Str(diagnosis))
    requires DecryptField(aes, Property(record, "notes"), aesKey) == Success(Str(notes))
    requires DecryptField(aes, Property(record, "medications"), aesKey) == Success(Str(Json.Stringify(medications)))
    ensures DecryptRecord(aes, rsa, privateKey, record)
            == Success(DecryptedRecord(Property(record, "_id"), Property(record, "patient"), Str(diagnosis), Str(notes), medications,
                                       Property(record, "visitDate")))
  {
    ParseMedicationsStringify(medications);
  }

  /** The fields of a payload that also carries a wrapped key and an `_id`. */
  lemma WithKeyProperties(aes: AesUtils.Aes, d: ClientPayload.Draft, aesKey: string, ivs: FieldCrypto.IvStream, nowIso: string,
                          wrapped: string, id: Value)
    requires FieldCrypto.KeyOk(aesKey) && d.diagnosis != "" && d.notes != ""
    ensures ClientPayload.Payload(aes, aesKey, ivs, d, nowIso).Success?
    ensures var record := WithKey(ClientPayload.Payload(aes, aesKey, ivs, d, nowIso).value, wrapped, id);
            && Property(record, "encryptedAesKey") == Some(Str(wrapped))
            && Property(record, "diagnosis") == Some(Str(AesUtils.EncryptAES(aes, d.diagnosis, aesKey, ivs(0)).value))
            && Property(record, "notes") == Some(Str(AesUtils.EncryptAES(aes, d.notes, aesKey, ivs(1)).value))
            && Property(record, "medications") == Some(Str(AesUtils.EncryptAES(aes, Json.Stringify(d.medications), aesKey, ivs(2)).value))
            && Property(record, "_id") == Some(id)
            && Property(record, "patient") == Some(Str(d.patient))
            && Property(record, "visitDate") == Some(Str(ClientPayload.VisitDate(nowIso)))
  {
    ClientPayload.PayloadValue(aes, aesKey, ivs, d, nowIso);
    var p := ClientPayload.Payload(aes, aesKey, ivs, d, nowIso).value;
    WithKeyKeeps(p, wrapped, id, "diagnosis");
    WithKeyKeeps(p, wrapped, id, "notes");
    WithKeyKeeps(p, wrapped, id, "medications");
    WithKeyKeeps(p, wrapped, id, "patient");
    WithKeyKeeps(p, wrapped, id, "visitDate");
  }

  /** Adding the key and the id leaves the payload's other fields as they were. */
  lemma WithKeyKeeps(payload: Body, wrapped: string, id: Value, k: string)
    requires k in payload && k != "_id" && k != "encryptedAesKey"
    ensures Property(WithKey(payload, wrapped, id), k) == Some(payload[k])
  {
  }

  /** End to end, for any record a client script builds: with the AES key wrapped for this
      script's key pair, `decryptRecord` returns the texts the script encrypted. */
  lemma DecryptsPayload(aes: AesUtils.Aes, rsa: RsaUtils.Rsa, d: ClientPayload.Draft, aesKey: string,
                        ivs: FieldCrypto.IvStream, nowIso: string, seed: nat, id: Value)
    requires AesUtils.Sound(aes) && RsaUtils.Sound(rsa)
    requires FieldCrypto.KeyOk(aesKey) && IsLowerHex(aesKey) && |aesKey| % 2 == 0
    requires d.diagnosis != "" && d.notes != ""
    ensures ClientPayload.Payload(aes, aesKey, ivs, d, nowIso).Success?
    ensures ClientPayload.WrapKey(rsa, aesKey, rsa.generate(ClientPayload.ClientKeyOptions, seed).publicKey).Success?
    ensures var kp := rsa.generate(ClientPayload.ClientKeyOptions, seed);
            var record := WithKey(ClientPayload.Payload(aes, aesKey, ivs, d, nowIso).value,
                                  ClientPayload.WrapKey(rsa, aesKey, kp.publicKey).value, id);
            DecryptRecord(aes, rsa, kp.privateKey, record)
            == Success(DecryptedRecord(Some(id), Some(Str(d.patient)), Str(d.diagnosis), Str(d.notes), d.medications,
                                       Some(Str(ClientPayload.VisitDate(nowIso)))))
  {
    var kp := rsa.generate(ClientPayload.ClientKeyOptions, seed);
    DecryptAESKeyInvertsWrap(rsa, seed, aesKey);
    var wrapped := ClientPayload.WrapKey(rsa, aesKey, kp.publicKey).value;
    WithKeyProperties(aes, d, aesKey, ivs, nowIso, wrapped, id);
    var record := WithKey(ClientPayload.Payload(aes, aesKey, ivs, d, nowIso).value, wrapped, id);
    FieldDecrypts(aes, d.diagnosis, aesKey, ivs(0));
    FieldDecrypts(aes, d.notes, aesKey, ivs(1));
    FieldDecrypts(aes, Json.Stringify(d.medications), aesKey, ivs(2));
    DecryptRecordOf(aes, rsa, kp.privateKey, record, wrapped, aesKey, d.diagnosis, d.notes, d.medications);
  }

  /** The retrieval flow end to end: the record the retrieval client builds, with its key wrapped
      for the client's own key pair, decrypts to the texts it wrote. */
  lemma RetrievalEndToEnd(aes: AesUtils.Aes, rsa: RsaUtils.Rsa, backendPublicKey: string, seed: nat, random: Bytes,
                          ivs: FieldCrypto.IvStream, nowIso: string, token: string, id: Value)
    requires AesUtils.Sound(aes) && RsaUtils.Sound(rsa) && |random| == 32
    requires ClientRetrieval.Run(aes, rsa, backendPublicKey, rsa.generate(ClientPayload.ClientKeyOptions, seed), random, ivs, nowIso, token).Success?
    ensures var kp := rsa.generate(ClientPayload.ClientKeyOptions, seed);
            var req := ClientRetrieval.Run(aes, rsa, backendPublicKey, kp, random, ivs, nowIso, token).value;
            && ClientPayload.WrapKey(rsa, req.aesKey, kp.publicKey).Success?
            && DecryptRecord(aes, rsa, kp.privateKey, WithKey(req.payload, ClientPayload.WrapKey(rsa, req.aesKey, kp.publicKey).value, id))
               == Success(DecryptedRecord(Some(id), Some(Str(ClientRetrieval.Record.patient)), Str(ClientRetrieval.Record.diagnosis),
                                          Str(ClientRetrieval.Record.notes), ClientRetrieval.Record.medications,
                                          Some(Str(ClientPayload.VisitDate(nowIso)))))
  {
    var kp := rsa.generate(ClientPayload.ClientKeyOptions, seed);
    var req := ClientRetrieval.Run(aes, rsa, backendPublicKey, kp, random, ivs, nowIso, token).value;
    var d := ClientRetrieval.Record;
    ClientPayload.PayloadIsEncryptFields(aes, req.aesKey, ivs, d, nowIso);
    assert req.payload == ClientPayload.Payload(aes, req.aesKey, ivs, d, nowIso).value;
    DecryptsPayload(aes, rsa, d, req.aesKey, ivs, nowIso, seed, id);
  }

  /** As written, the retrieval client wraps the key for the backend's pair, so the key in its
      header does not unwrap with the client's own private key. */
  lemma HeaderKeyFails(aes: AesUtils.Aes, rsa: RsaUtils.Rsa, backendSeed: nat, seed: nat, random: Bytes,
                       ivs: FieldCrypto.IvStream, nowIso: string, token: string)
    requires RsaUtils.Sound(rsa) && |random| == 32 && backendSeed != seed
    requires ClientRetrieval.Run(aes, rsa, RsaUtils.GenerateRSAKeyPair(rsa, backendSeed).publicKey,
                                 rsa.generate(ClientPayload.ClientKeyOptions, seed), random, ivs, nowIso, token).Success?
    ensures var kp := rsa.generate(ClientPayload.ClientKeyOptions, seed);
            var req := ClientRetrieval.Run(aes, rsa, RsaUtils.GenerateRSAKeyPair(rsa, backendSeed).publicKey, kp, random, ivs, nowIso, token).value;
            DecryptAESKey(rsa, kp.privateKey, req.headers["x-encrypted-aes-key"]).Failure?
  {
    var kp := rsa.generate(ClientPayload.ClientKeyOptions, seed);
    var pub := RsaUtils.GenerateRSAKeyPair(rsa, backendSeed).publicKey;
    var req := ClientRetrieval.Run(aes, rsa, pub, kp, random, ivs, nowIso, token).value;
    var c := rsa.publicEncrypt(pub, RsaUtils.OaepSha256, random).value;
    assert Base64.Decode(req.headers["x-encrypted-aes-key"]) == c;
    assert RsaUtils.RejectsOthers(rsa);
    assert rsa.privateDecrypt(kp.privateKey, RsaUtils.OaepSha256, c).Failure?;
  }
}
