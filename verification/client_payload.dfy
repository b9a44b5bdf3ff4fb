/** What the two record-creating client scripts share: `encryptWithAES`, the transit wrapping
    of the AES key, the `visitDate` field and the shape of the payload they post. Each script
    fills the payload with its own fixed texts (`ClientCreation`, `ClientRetrieval`). */
module ClientPayload {
  import opened Wrappers
  import opened Values
  import opened Hex
  import Text
  import Json
  import Base64
  import AesUtils
  import RsaUtils
  import FieldCrypto

  const MissingInput := "Missing plainText or aesKey"
  const InvalidKeyLength := "Invalid key length"

  /** The key pairs the client scripts generate: 2048 bits, PKCS#1 private key. */
  const ClientKeyOptions := RsaUtils.KeyGenOptions(2048, RsaUtils.Pkcs1)

  /** `encryptWithAES(plainText, aesKey)` of the record-creation script: rejects a falsy
      argument, then produces exactly what the backend's `encryptAES` produces for the same IV. */
  function EncryptWithAES(aes: AesUtils.Aes, plainText: Option<string>, aesKey: Option<string>, iv: AesUtils.Iv): (r: Result<string, string>)
    ensures !Present(plainText) || !Present(aesKey) ==> r == Failure(MissingInput)
    ensures Present(plainText) && Present(aesKey) ==>
              (r.Success? <==> AesUtils.EncryptAES(aes, plainText.value, aesKey.value, iv).Success?)
    ensures r.Success? ==> r.value == AesUtils.EncryptAES(aes, plainText.value, aesKey.value, iv).value
  {
    if !Present(plainText) || !Present(aesKey) then Failure(MissingInput)
    else
      match AesUtils.EncryptAES(aes, plainText.value, aesKey.value, iv)
      case Failure(_) => Failure(InvalidKeyLength)
      case Success(s) => Success(s)
  }

  /** `encryptAESKeyWithBackendPublicKey` / `encryptAESKeyForTransit`: OAEP with SHA-256 over
      the raw key bytes (the hex decoded), as base64. */
  function WrapKey(rsa: RsaUtils.Rsa, aesKey: string, publicKey: string): (r: Result<string, string>)
    ensures r.Success? <==> rsa.publicEncrypt(publicKey, RsaUtils.OaepSha256, Decode(aesKey)).Success?
    ensures r.Success? ==> Base64.Decode(r.value) == rsa.publicEncrypt(publicKey, RsaUtils.OaepSha256, Decode(aesKey)).value
  {
    match rsa.publicEncrypt(publicKey, RsaUtils.OaepSha256, Decode(aesKey))
    case Failure(e) => Failure(e)
    case Success(c) =>
      Base64.DecodeEncode(c);
      Success(Base64.Encode(c))
  }

  /** A key the scripts generate always fits an OAEP/SHA-256 block of a 2048-bit key pair, so a
      sound RSA wraps it. */
  lemma WrapGeneratedKey(rsa: RsaUtils.Rsa, aesKey: string, seed: nat)
    requires RsaUtils.Sound(rsa) && FieldCrypto.KeyOk(aesKey)
    ensures WrapKey(rsa, aesKey, rsa.generate(ClientKeyOptions, seed).publicKey).Success?
  {
    assert RsaUtils.WrapsShortMessages(rsa);
    assert RsaUtils.MaxMessage(2048, RsaUtils.OaepSha256) == 190;
  }

  /** `new Date().toISOString().split('T')[0]`: the date part of the timestamp. */
  function VisitDate(iso: string): (d: string)
    ensures 'T' !in d
    ensures Text.StartsWith(iso, d)
  {
    var parts := Text.Split(iso, 'T');
    Text.SplitJoin(iso, 'T');
    JoinStartsWithFirst(parts, 'T');
    parts[0]
  }

  lemma JoinStartsWithFirst(parts: seq<string>, sep: char)
    requires |parts| >= 1
    ensures Text.StartsWith(Text.Join(parts, sep), parts[0])
  {
    if |parts| > 1 {
      Text.StartsWithAppend(parts[0], [sep] + Text.Join(parts[1..], sep));
      assert parts[0] + [sep] + Text.Join(parts[1..], sep) == parts[0] + ([sep] + Text.Join(parts[1..], sep));
    } else {
      Text.StartsWithAppend(parts[0], "");
      assert parts[0] + "" == parts[0];
    }
  }

  /** An ISO timestamp `date "T" time` gives its date. */
  lemma VisitDateOfTimestamp(date: string, time: string)
    requires 'T' !in date
    ensures VisitDate(date + "T" + time) == date
  {
    assert date + "T" + time == date + ['T'] + time;
    Text.SplitAtFirst(date, 'T', time);
  }

  /** The fixed texts a script puts in its record. */
  datatype Draft = Draft(patient: string, diagnosis: string, notes: string, medications: seq<string>)

  /** The fields the scripts encrypt, in the order the object literal evaluates them. */
  const EncryptedFields: seq<string> := ["diagnosis", "notes", "medications"]

  /** The record a script describes, before any field is encrypted. */
  function PlainRecord(d: Draft, nowIso: string): Body {
    map[
      "patient" := Str(d.patient),
      "diagnosis" := Str(d.diagnosis),
      "notes" := Str(d.notes),
      "medications" := StrArray(d.medications),
      "visitDate" := Str(VisitDate(nowIso))]
  }

  /** The payload a script posts: three fields encrypted under one key with fresh IVs, the
      medications as their JSON text; `patient` and `visitDate` stay plaintext. */
  function Payload(aes: AesUtils.Aes, aesKey: string, ivs: FieldCrypto.IvStream, d: Draft, nowIso: string): (r: Result<Body, string>)
    ensures d.diagnosis != "" && d.notes != "" && aesKey != "" ==> (r.Success? <==> FieldCrypto.KeyOk(aesKey))
    ensures r.Success? ==> r.value.Keys == PlainRecord(d, nowIso).Keys
  {
    var diagnosis :- EncryptWithAES(aes, Some(d.diagnosis), Some(aesKey), ivs(0));
    var notes :- EncryptWithAES(aes, Some(d.notes), Some(aesKey), ivs(1));
    var medications :- EncryptWithAES(aes, Some(Json.Stringify(d.medications)), Some(aesKey), ivs(2));
    Success(PlainRecord(d, nowIso)["diagnosis" := Str(diagnosis)]["notes" := Str(notes)]["medications" := Str(medications)])
  }

  /** One turn of the backend loop on a present field whose plaintext is `text`. */
  lemma EncryptFieldsCons(aes: AesUtils.Aes, body: Body, f: string, rest: seq<string>, key: string, ivs: FieldCrypto.IvStream, n: nat, text: string)
    requires FieldCrypto.KeyOk(key) && f in body && FieldCrypto.Plaintext(body[f]) == Success(text)
    ensures FieldCrypto.EncryptFields(aes, body, [f] + rest, key, ivs, n)
            == FieldCrypto.EncryptFields(aes, body[f := Str(AesUtils.EncryptAES(aes, text, key, ivs(n)).value)], rest, key, ivs, n + 1)
  {
    var b1 := body[f := Str(AesUtils.EncryptAES(aes, text, key, ivs(n)).value)];
    assert FieldCrypto.EncryptField(aes, body, f, key, ivs(n)) == Success(b1);
    FieldCrypto.EncryptFieldsStep(aes, body, [f] + rest, key, ivs, n, b1);
    assert ([f] + rest)[1..] == rest;
  }

  /** Two turns of the backend loop over distinct present fields. */
  lemma EncryptTwoFields(aes: AesUtils.Aes, body: Body, f2: string, f3: string, key: string, ivs: FieldCrypto.IvStream,
                         t2: string, t3: string)
    requires FieldCrypto.KeyOk(key) && f2 != f3
    requires f2 in body && FieldCrypto.Plaintext(body[f2]) == Success(t2)
    requires f3 in body && FieldCrypto.Plaintext(body[f3]) == Success(t3)
    ensures FieldCrypto.EncryptFields(aes, body, [f2, f3], key, ivs, 1)
            == Success(body[f2 := Str(AesUtils.EncryptAES(aes, t2, key, ivs(1)).value)]
                           [f3 := Str(AesUtils.EncryptAES(aes, t3, key, ivs(2)).value)])
  {
    var b2 := body[f2 := Str(AesUtils.EncryptAES(aes, t2, key, ivs(1)).value)];
    assert [f2] + [f3] == [f2, f3];
    EncryptFieldsCons(aes, body, f2, [f3], key, ivs, 1, t2);
    assert b2[f3] == body[f3];
    assert [f3] + [] == [f3];
    EncryptFieldsCons(aes, b2, f3, [], key, ivs, 2, t3);
  }

  /** Three turns of the backend loop over distinct present fields. */
  lemma EncryptThreeFields(aes: AesUtils.Aes, body: Body, f1: string, f2: string, f3: string, key: string, ivs: FieldCrypto.IvStream,
                           t1: string, t2: string, t3: string)
    requires FieldCrypto.KeyOk(key) && f1 != f2 && f1 != f3 && f2 != f3
    requires f1 in body && FieldCrypto.Plaintext(body[f1]) == Success(t1)
    requires f2 in body && FieldCrypto.Plaintext(body[f2]) == Success(t2)
    requires f3 in body && FieldCrypto.Plaintext(body[f3]) == Success(t3)
    ensures FieldCrypto.EncryptFields(aes, body, [f1, f2, f3], key, ivs, 0)
            == Success(body[f1 := Str(AesUtils.EncryptAES(aes, t1, key, ivs(0)).value)]
                           [f2 := Str(AesUtils.EncryptAES(aes, t2, key, ivs(1)).value)]
                           [f3 := Str(AesUtils.EncryptAES(aes, t3, key, ivs(2)).value)])
  {
    var b1 := body[f1 := Str(AesUtils.EncryptAES(aes, t1, key, ivs(0)).value)];
    assert [f1] + [f2, f3] == [f1, f2, f3];
    EncryptFieldsCons(aes, body, f1, [f2, f3], key, ivs, 0, t1);
    assert b1[f2] == body[f2] && b1[f3] == body[f3];
    EncryptTwoFields(aes, b1, f2, f3, key, ivs, t2, t3);
  }

  /** The client's payload is exactly what the backend's `encryptFieldsAES` makes of the plain
      record with the same key and IVs. */
  lemma PayloadIsEncryptFields(aes: AesUtils.Aes, aesKey: string, ivs: FieldCrypto.IvStream, d: Draft, nowIso: string)
    requires FieldCrypto.KeyOk(aesKey) && d.diagnosis != "" && d.notes != ""
    ensures Payload(aes, aesKey, ivs, d, nowIso).Success?
    ensures FieldCrypto.EncryptFields(aes, PlainRecord(d, nowIso), EncryptedFields, aesKey, ivs, 0)
            == Success(Payload(aes, aesKey, ivs, d, nowIso).value)
  {
    EncryptThreeFields(aes, PlainRecord(d, nowIso), "diagnosis", "notes", "medications", aesKey, ivs,
                       d.diagnosis, d.notes, Json.Stringify(d.medications));
    PayloadValue(aes, aesKey, ivs, d, nowIso);
  }

  lemma PayloadValue(aes: AesUtils.Aes, aesKey: string, ivs: FieldCrypto.IvStream, d: Draft, nowIso: string)
    requires FieldCrypto.KeyOk(aesKey) && d.diagnosis != "" && d.notes != ""
    ensures Payload(aes, aesKey, ivs, d, nowIso) == Success(PlainRecord(d, nowIso)
              ["diagnosis" := Str(AesUtils.EncryptAES(aes, d.diagnosis, aesKey, ivs(0)).value)]
              ["notes" := Str(AesUtils.EncryptAES(aes, d.notes, aesKey, ivs(1)).value)]
              ["medications" := Str(AesUtils.EncryptAES(aes, Json.Stringify(d.medications), aesKey, ivs(2)).value)])
  {
    assert aesKey != "";
    var e0 := EncryptWithAES(aes, Some(d.diagnosis), Some(aesKey), ivs(0));
    var e1 := EncryptWithAES(aes, Some(d.notes), Some(aesKey), ivs(1));
    var e2 := EncryptWithAES(aes, Some(Json.Stringify(d.medications)), Some(aesKey), ivs(2));
    assert e0 == Success(AesUtils.EncryptAES(aes, d.diagnosis, aesKey, ivs(0)).value);
    assert e1 == Success(AesUtils.EncryptAES(aes, d.notes, aesKey, ivs(1)).value);
    assert e2 == Success(AesUtils.EncryptAES(aes, Json.Stringify(d.medications), aesKey, ivs(2)).value);
  }

  /** The backend's decryption loop, given the same key, reads the payload back: the two
      strings as sent, and the medications as JSON text that parses to the list. */
  lemma BackendDecryptsPayload(aes: AesUtils.Aes, aesKey: string, ivs: FieldCrypto.IvStream, d: Draft, nowIso: string, g: FieldCrypto.Guard)
    requires AesUtils.Sound(aes) && FieldCrypto.KeyOk(aesKey) && d.diagnosis != "" && d.notes != ""
    ensures Payload(aes, aesKey, ivs, d, nowIso).Success?
    ensures var r := FieldCrypto.DecryptFields(aes, Payload(aes, aesKey, ivs, d, nowIso).value, EncryptedFields, aesKey, g);
            && r.Success?
            && r.value == PlainRecord(d, nowIso)["medications" := Str(Json.Stringify(d.medications))]
            && Json.Parse(r.value["medications"].s) == Some(d.medications)
  {
    var p := PlainRecord(d, nowIso);
    PayloadIsEncryptFields(aes, aesKey, ivs, d, nowIso);
    PlainRecordEncryptable(d, nowIso);
    FieldCrypto.DecryptEncryptFields(aes, p, EncryptedFields, aesKey, ivs, 0, g);
    Json.ParseStringify(d.medications);
    FlattenPlainRecord(d, nowIso);
  }

  lemma PlainRecordEncryptable(d: Draft, nowIso: string)
    ensures FieldCrypto.NoDuplicates(EncryptedFields)
    ensures var p := PlainRecord(d, nowIso);
            forall i | 0 <= i < |EncryptedFields| && EncryptedFields[i] in p :: FieldCrypto.Encryptable(p[EncryptedFields[i]])
  {
  }

  lemma FlattenPlainRecord(d: Draft, nowIso: string)
    ensures FieldCrypto.Flatten(PlainRecord(d, nowIso), EncryptedFields)
            == PlainRecord(d, nowIso)["medications" := Str(Json.Stringify(d.medications))]
  {
    var p := PlainRecord(d, nowIso);
    var f := FieldCrypto.Flatten(p, EncryptedFields);
    forall k | k in p ensures f[k] == p["medications" := Str(Json.Stringify(d.medications))][k] {
      if k == "medications" {
        assert k in EncryptedFields;
      } else if k in EncryptedFields {
        assert p[k].Str?;
      }
    }
  }
}
